/** The pivot of one patient into register cells (transformDataSet and
    addPatientRow of HIVARTRegisterDataSetDefinitionEvaluator), stated as the
    list of values a row receives: one sheet of 36 months at a time, each
    sheet repeating the patient's static columns, then drug columns month by
    month and observation columns every sixth month, with further sheets
    while observations or current drugs remain. */
module Register {
  import opened Optional
  import opened Text
  import opened Calendar
  import opened Seqs
  import opened Facts
  import opened Cleansers
  import opened Buckets
  import opened Rows

  /** What addPatientRow works from: the evaluated row, the cleansed drug
      orders and observation lists, the two change summaries, and the
      surroundings. */
  datatype RowContext = RowContext(
    facts: PatientFacts,
    drugs: seq<DrugOrder>,
    cd4: seq<Obs>,
    stage: seq<Obs>,
    tb: seq<Obs>,
    firstLineChanges: string,
    secondLineChanges: string,
    env: Env)

  /** Every observation list holds only observations beyond the grace
      window of the anchor, and is empty when there is no anchor. */
  predicate Cleansed(ctx: RowContext) {
    match ctx.facts.anchor
    case None => ctx.cd4 == [] && ctx.stage == [] && ctx.tb == []
    case Some(a) =>
      && Above(ctx.cd4, a, GraceMonths) == ctx.cd4
      && Above(ctx.stage, a, GraceMonths) == ctx.stage
      && Above(ctx.tb, a, GraceMonths) == ctx.tb
  }

  /** The per-row preparation of transformDataSet: the ART drugs, the three
      observation lists and both regimen-change lists are cleansed against
      the anchor, and the change lists are summarised. */
  function Prepare(facts: PatientFacts, env: Env): (ctx: RowContext)
    ensures Cleansed(ctx)
    ensures ctx.facts == facts && ctx.env == env
    ensures ctx.drugs == CleansedOrders(facts.artDrugs, facts.anchor)
    ensures ctx.cd4 == CleansedObs(facts.cd4Obs, facts.anchor)
    ensures ctx.stage == CleansedObs(facts.stageObs, facts.anchor)
    ensures ctx.tb == CleansedObs(facts.tbObs, facts.anchor)
    ensures ctx.firstLineChanges == DiscontinuedReasons(CleansedOrders(facts.firstLineChanges, facts.anchor))
    ensures ctx.secondLineChanges == DiscontinuedReasons(CleansedOrders(facts.secondLineChanges, facts.anchor))
  {
    var anchor := facts.anchor;
    var ctx := RowContext(
      facts,
      CleansedOrders(facts.artDrugs, anchor),
      CleansedObs(facts.cd4Obs, anchor),
      CleansedObs(facts.stageObs, anchor),
      CleansedObs(facts.tbObs, anchor),
      DiscontinuedReasons(CleansedOrders(facts.firstLineChanges, anchor)),
      DiscontinuedReasons(CleansedOrders(facts.secondLineChanges, anchor)),
      env);
    match anchor
    case None => ctx
    case Some(a) =>
      AboveAbove(facts.cd4Obs, a, GraceMonths, GraceMonths);
      AboveAbove(facts.stageObs, a, GraceMonths, GraceMonths);
      AboveAbove(facts.tbObs, a, GraceMonths, GraceMonths);
      ctx
  }

  /** What is left of an observation list once every observation month up
      to month k - 3 has consumed its window: the observations more than k
      months after the anchor. */
  function Pool(ctx: RowContext, obs: seq<Obs>, k: int): seq<Obs> {
    match ctx.facts.anchor
    case None => []
    case Some(a) => Above(obs, a, k)
  }

  /** On a cleansed context, the pools before the first observation month
      are the lists themselves. */
  lemma CleansedPools(ctx: RowContext)
    requires Cleansed(ctx)
    ensures Pool(ctx, ctx.cd4, GraceMonths) == ctx.cd4
    ensures Pool(ctx, ctx.stage, GraceMonths) == ctx.stage
    ensures Pool(ctx, ctx.tb, GraceMonths) == ctx.tb
  {
  }

  // ---------------------------------------------------------------------
  // Column names

  /** A column name followed by a number, as Java's string + int writes it. */
  function Numbered(name: string, n: nat): string {
    name + DecimalText(n)
  }

  /** The same name with different numbers gives different columns, so
      no month column of a row overwrites another month's. */
  lemma NumberedDistinct(name: string, m: nat, n: nat)
    requires m != n
    ensures Numbered(name, m) != Numbered(name, n)
  {
    DecimalTextInjective(m, n);
    assert Numbered(name, m)[|name|..] == DecimalText(m);
    assert Numbered(name, n)[|name|..] == DecimalText(n);
  }

  function MonthName(month: nat): string {
    Numbered("Month ", month)
  }

  function MonthZeroName(sheet: nat): string {
    Numbered("Month 0", sheet)
  }

  // ---------------------------------------------------------------------
  // The static columns every sheet repeats

  function OptionalText(v: Option<string>): Value {
    match v
    case None => Null
    case Some(t) => Text(t)
  }

  function OptionalDay(d: Option<Date>): Value {
    match d
    case None => Null
    case Some(t) => Day(t)
  }

  /** An identity column as the row shows it: a list prints as its text and
      a drug order as its drug name. */
  function Rendered(v: Value): Value {
    match v
    case Listing(text) => Text(text)
    case Order(o) => Text(DrugName(o))
    case _ => v
  }

  /** Text of a possibly absent string as Java's concatenation writes it. */
  function Printed(v: Option<string>): string {
    match v
    case None => "null"
    case Some(t) => t
  }

  /** An initial CD4 column: absent when the column did not evaluate to an
      observation result, otherwise its value followed by its date when it
      has one. */
  function InitialCd4Value(r: Option<ObsResult>): Value {
    match r
    case None => Null
    case Some(o) =>
      match o.date
      case Some(d) => Text(Printed(o.value) + " " + IsoDay(d))
      case None => OptionalText(o.value)
  }

  function HeaderWrites(ctx: RowContext, rowNumber: int, sheet: nat): seq<Cell> {
    [ Cell(Numbered("No", sheet), Number(rowNumber)),
      Cell(Numbered("Date of Debut of ARV/ART", sheet), OptionalDay(ctx.facts.anchor)),
      Cell(Numbered("Date of Starting Regimen", sheet),
           match ctx.facts.startingRegimen
           case None => Null
           case Some(o) => Order(o)) ]
  }

  function IdentityWrites(ids: seq<Labelled<Value>>, sheet: nat): (r: seq<Cell>)
    ensures |r| == |ids|
  {
    seq(|ids|, i requires 0 <= i < |ids| => Cell(Numbered(ids[i].heading, sheet), Rendered(ids[i].value)))
  }

  function ObservationWrites(ctx: RowContext, sheet: nat): seq<Cell> {
    var weight := ctx.facts.weightAtStart;
    var stage := ctx.facts.initialStage;
    var count := ctx.facts.initialCd4Count;
    var percent := ctx.facts.initialCd4Percent;
    [ Cell(Numbered(weight.heading, sheet), OptionalText(weight.value.value)),
      Cell(Numbered(weight.heading + " date", sheet), OptionalDay(weight.value.date)),
      Cell(Numbered(stage.heading, sheet),
           match stage.value
           case None => Null
           case Some(t) => Text(ReplaceFirst(t, "WHO STAGE", ""))),
      Cell(Numbered(count.heading, sheet), InitialCd4Value(count.value)),
      Cell(Numbered(percent.heading, sheet), InitialCd4Value(percent.value)) ]
  }

  /** The start and stop dates of the last order of a treatment column. */
  function TreatmentWrites(t: Labelled<seq<DrugOrder>>, sheet: nat): seq<Cell> {
    [ Cell(Numbered("start " + t.heading, sheet), if t.value == [] then Null else Day(Last(t.value).effectiveStart)),
      Cell(Numbered("end " + t.heading, sheet), if t.value == [] then Null else OptionalDay(Last(t.value).effectiveStop)) ]
  }

  function PregnancyValue(deliveries: Option<seq<Obs>>, m: nat): Value {
    if deliveries.Some? && |deliveries.value| > m then Text(deliveries.value[m].valueText) else Null
  }

  function PregnancyWrites(deliveries: Option<seq<Obs>>, sheet: nat): (r: seq<Cell>)
    ensures |r| == 4
  {
    seq(4, m requires 0 <= m < 4 => Cell(Numbered(Numbered("Pregnancy ", m), sheet), PregnancyValue(deliveries, m)))
  }

  function RegimenWrites(ctx: RowContext, sheet: nat): seq<Cell> {
    [ Cell(Numbered("Initial Regimen", sheet),
           Text(match ctx.facts.initialRegimen
                case None => DrugMissing
                case Some(o) => DrugName(o))),
      Cell(Numbered("First Line Changes", sheet), Text(ctx.firstLineChanges)),
      Cell(Numbered("Second Line Changes", sheet), Text(ctx.secondLineChanges)) ]
  }

  function StaticWrites(ctx: RowContext, rowNumber: int, sheet: nat): seq<Cell> {
    HeaderWrites(ctx, rowNumber, sheet)
      + IdentityWrites(ctx.facts.identity, sheet)
      + ObservationWrites(ctx, sheet)
      + TreatmentWrites(ctx.facts.ctxTreatment, sheet)
      + TreatmentWrites(ctx.facts.tbTreatment, sheet)
      + PregnancyWrites(ctx.facts.pregnancyDeliveryDates, sheet)
      + RegimenWrites(ctx, sheet)
  }

  // ---------------------------------------------------------------------
  // Drug columns

  /** The drug cell of a month offset. */
  function DrugCell(ctx: RowContext, month: nat): string {
    DrugsAtMonth(ctx.drugs, ctx.facts.anchor, month, ctx.env)
  }

  /** A drug cell split on ";": the first part under `name`, the second,
      when there is one, under `dateName`. */
  function DrugMonthWrites(ctx: RowContext, name: string, dateName: string, month: nat): (r: seq<Cell>)
    ensures 1 <= |r| <= 2 && r[0].name == name
    ensures |r| == 2 <==> DrugCell(ctx, month) != ""
    ensures |r| == 2 ==> r[1].name == dateName
  {
    DrugsAtMonthSplit(ctx.drugs, ctx.facts.anchor, month, ctx.env);
    var parts := JavaSplit(DrugCell(ctx, month), ';');
    [Cell(name, Text(parts[0]))] + if |parts| > 1 then [Cell(dateName, Text(parts[1]))] else []
  }

  /** The first month of a sheet: the whole drug cell goes in first and is
      then replaced by its first part. */
  function MonthZeroWrites(ctx: RowContext, sheet: nat, start: nat): seq<Cell> {
    [Cell(MonthZeroName(sheet), Text(DrugCell(ctx, start)))]
      + DrugMonthWrites(ctx, MonthZeroName(sheet), MonthZeroName(sheet) + "date", start)
  }

  /** The drug columns of months base + 1 to base + n. */
  function DrugRun(ctx: RowContext, base: nat, n: nat): seq<Cell> {
    if n == 0 then []
    else DrugRun(ctx, base, n - 1) + DrugMonthWrites(ctx, MonthName(base + n), MonthName(base + n) + "date", base + n)
  }

  // ---------------------------------------------------------------------
  // Observation columns

  /** What an observation column reports at a month: nothing is tracked any
      more (the list is used up), or the list still has observations but
      none in the window, or the latest observation in the window. */
  datatype Report = Untracked | Unmatched | Latest(obs: Obs)

  /** The report of month `month` on an observation list `obs` from which
      every earlier window has been consumed: the last observation of the
      list whose distance lies in (month - 3, month + 3]. */
  function ReportAt(ctx: RowContext, obs: seq<Obs>, month: int): Report {
    match ctx.facts.anchor
    case None => Untracked
    case Some(a) =>
      if Above(obs, a, month - 3) == [] then Untracked
      else
        var window := Between(obs, a, month - 3, month + 3);
        if window == [] then Unmatched else Latest(Last(window))
  }

  /** What a report means: without an anchor nothing is tracked; a
      reported observation is one of the list's, within the window of the
      month; no report means the list has no observation in that window. */
  lemma ReportAtWindow(ctx: RowContext, obs: seq<Obs>, month: int)
    ensures ctx.facts.anchor.None? ==> ReportAt(ctx, obs, month) == Untracked
    ensures var r := ReportAt(ctx, obs, month);
      r.Latest? ==>
        && ctx.facts.anchor.Some? && r.obs in obs
        && month - 3 < Distance(r.obs, ctx.facts.anchor.value) <= month + 3
    ensures ReportAt(ctx, obs, month).Unmatched? ==>
      forall o :: o in obs ==> !(month - 3 < Distance(o, ctx.facts.anchor.value) <= month + 3)
  {
    match ctx.facts.anchor
    case None =>
    case Some(a) =>
      var window := Between(obs, a, month - 3, month + 3);
      if window != [] {
        assert Last(window) in window;
      }
  }

  function ReportText(r: Report): Value {
    match r
    case Untracked => Null
    case Unmatched => Text("")
    case Latest(o) => Text(o.valueText)
  }

  function ReportStageText(r: Report): Value {
    match r
    case Untracked => Null
    case Unmatched => Text("")
    case Latest(o) => Text(ReplaceFirst(o.valueText, "WHO STAGE", ""))
  }

  function ReportDate(r: Report): Value {
    match r
    case Latest(o) => Day(o.obsDatetime)
    case _ => Null
  }

  /** The CD4 value and date, the stage and the TB columns of a month. */
  function ObsMonthWrites(ctx: RowContext, month: nat): seq<Cell> {
    var cd4 := ReportAt(ctx, ctx.cd4, month);
    [ Cell(Numbered("CD4 ", month), ReportText(cd4)),
      Cell(Numbered("CD4 date", month), ReportDate(cd4)),
      Cell(Numbered("Stage ", month), ReportStageText(ReportAt(ctx, ctx.stage, month))),
      Cell(Numbered("TB ", month), ReportText(ReportAt(ctx, ctx.tb, month))) ]
  }

  // ---------------------------------------------------------------------
  // Sheets

  /** Five drug months after `base`, then the observation month base + 6. */
  function BlockWrites(ctx: RowContext, base: nat): seq<Cell> {
    DrugRun(ctx, base, 5) + ObsMonthWrites(ctx, base + 6)
  }

  /** The first f six-month blocks of the sheet starting at `start`. */
  function Blocks(ctx: RowContext, start: nat, f: nat): seq<Cell> {
    if f == 0 then [] else Blocks(ctx, start, f - 1) + BlockWrites(ctx, start + 6 * (f - 1))
  }

  function SheetWrites(ctx: RowContext, rowNumber: int, sheet: nat, start: nat): seq<Cell> {
    StaticWrites(ctx, rowNumber, sheet) + MonthZeroWrites(ctx, sheet, start) + Blocks(ctx, start, 6)
  }

  /** A sheet ending at month `last` is followed by another when an
      observation list still holds observations beyond last + 3 or some
      drug is current at month last + 1. */
  predicate Continue(ctx: RowContext, last: nat) {
    || Pool(ctx, ctx.cd4, last + 3) != []
    || Pool(ctx, ctx.stage, last + 3) != []
    || Pool(ctx, ctx.tb, last + 3) != []
    || DrugCell(ctx, last + 1) != ""
  }

  /** The largest month distance in a list (0 for an empty list). */
  function MaxDistance(obs: seq<Obs>, anchor: Date): (r: int)
    ensures r >= 0
    ensures forall o :: o in obs ==> Distance(o, anchor) <= r
  {
    if obs == [] then 0
    else
      var init := MaxDistance(obs[..|obs| - 1], anchor);
      var d := Distance(obs[|obs| - 1], anchor);
      assert forall o :: o in obs ==> o in obs[..|obs| - 1] || o == obs[|obs| - 1];
      if d > init then d else init
  }

  /** A month past which no sheet can start: beyond every observation and
      beyond now. */
  function Bound(ctx: RowContext): (r: int)
    ensures r >= 0
  {
    match ctx.facts.anchor
    case None => 0
    case Some(a) =>
      var obs := MaxDistance(ctx.cd4, a);
      var stage := MaxDistance(ctx.stage, a);
      var tb := MaxDistance(ctx.tb, a);
      var now := MonthsDifference(ctx.env.now, a);
      var m := if obs > stage then obs else stage;
      var m' := if m > tb then m else tb;
      if m' > now then m' else now
  }

  /** Another sheet only ever follows a sheet ending before the bound, so
      the sheets come to an end. */
  lemma ContinueBelowBound(ctx: RowContext, last: nat)
    requires Continue(ctx, last)
    ensures last < Bound(ctx)
  {
    var a := ctx.facts.anchor.value;
    if Pool(ctx, ctx.cd4, last + 3) != [] {
      assert Pool(ctx, ctx.cd4, last + 3)[0] in ctx.cd4;
    } else if Pool(ctx, ctx.stage, last + 3) != [] {
      assert Pool(ctx, ctx.stage, last + 3)[0] in ctx.stage;
    } else if Pool(ctx, ctx.tb, last + 3) != [] {
      assert Pool(ctx, ctx.tb, last + 3)[0] in ctx.tb;
    } else {
      DrugsAtMonthBoundedByNow(ctx.drugs, a, last + 1, ctx.env);
    }
  }

  /** addPatientRow from sheet `sheet` on, whose months start at `start`:
      that sheet, then the following sheets while Continue holds. */
  function RowWrites(ctx: RowContext, rowNumber: int, sheet: nat, start: nat): seq<Cell>
    decreases Bound(ctx) - start
  {
    var here := SheetWrites(ctx, rowNumber, sheet, start);
    if Continue(ctx, start + 36) then
      ContinueBelowBound(ctx, start + 36);
      here + RowWrites(ctx, rowNumber, sheet + 1, start + 36)
    else here
  }

  /** The number of sheets a row has from the sheet starting at `start`
      on: that one, and one more for as long as Continue holds. */
  function SheetCount(ctx: RowContext, start: nat): (count: nat)
    ensures count >= 1
    decreases Bound(ctx) - start
  {
    if Continue(ctx, start + 36) then
      ContinueBelowBound(ctx, start + 36);
      SheetCount(ctx, start + 36) + 1
    else 1
  }

  /** No sheet follows the last one, which ends at month start + 36 * count. */
  lemma {:induction false} SheetCountEnds(ctx: RowContext, start: nat, n: nat)
    requires n == SheetCount(ctx, start)
    ensures !Continue(ctx, start + 36 * n)
    decreases Bound(ctx) - start
  {
    if Continue(ctx, start + 36) {
      ContinueBelowBound(ctx, start + 36);
      SheetCountEnds(ctx, start + 36, n - 1);
      assert start + 36 + 36 * (n - 1) == start + 36 * n;
    } else {
      assert n == 1;
    }
  }

  /** The first f blocks of a sheet write the observation columns of
      months start + 6, ..., start + 6f. */
  lemma {:induction false} BlocksWriteObservationMonth(ctx: RowContext, start: nat, f: nat, j: nat, month: nat)
    requires 1 <= j <= f && month == start + 6 * j
    ensures Within(ObsMonthWrites(ctx, month), Blocks(ctx, start, f))
    decreases f
  {
    var g := f - 1;
    var base := start + 6 * g;
    var earlier := Blocks(ctx, start, g);
    BlocksSplit(ctx, start, f, base);
    if j == f {
      BlockEndsInObservationMonth(ctx, base, month);
      WithinPrepend(ObsMonthWrites(ctx, month), BlockWrites(ctx, base), earlier);
    } else {
      BlocksWriteObservationMonth(ctx, start, g, j, month);
      WithinAppend(ObsMonthWrites(ctx, month), earlier, BlockWrites(ctx, base));
    }
  }

  lemma BlocksSplit(ctx: RowContext, start: nat, f: nat, base: nat)
    requires 1 <= f && base == start + 6 * (f - 1)
    ensures Blocks(ctx, start, f) == Blocks(ctx, start, f - 1) + BlockWrites(ctx, base)
  {
  }

  lemma BlockEndsInObservationMonth(ctx: RowContext, base: nat, month: nat)
    requires month == base + 6
    ensures Within(ObsMonthWrites(ctx, month), BlockWrites(ctx, base))
  {
    var drugs := DrugRun(ctx, base, 5);
    WithinMiddle(drugs, ObsMonthWrites(ctx, month), []);
    assert drugs + ObsMonthWrites(ctx, month) + [] == BlockWrites(ctx, base);
  }

  /** A sheet writes the observation columns of its six observation
      months. */
  lemma SheetWritesObservationMonth(ctx: RowContext, rowNumber: int, sheet: nat, start: nat, k: nat, month: nat)
    requires 1 <= k <= 6 && month == start + 6 * k
    ensures Within(ObsMonthWrites(ctx, month), SheetWrites(ctx, rowNumber, sheet, start))
  {
    BlocksWriteObservationMonth(ctx, start, 6, k, month);
    WithinPrepend(ObsMonthWrites(ctx, month), Blocks(ctx, start, 6),
      StaticWrites(ctx, rowNumber, sheet) + MonthZeroWrites(ctx, sheet, start));
  }

  /** The sheets counted by SheetCount are the sheets the row writes: for
      every k from 1 to 6 * SheetCount, the row writes the observation
      columns of month start + 6k. */
  lemma {:induction false} RowWritesObservationMonth(ctx: RowContext, rowNumber: int, sheet: nat, start: nat, k: nat, month: nat)
    requires 1 <= k <= 6 * SheetCount(ctx, start) && month == start + 6 * k
    ensures Within(ObsMonthWrites(ctx, month), RowWrites(ctx, rowNumber, sheet, start))
    decreases Bound(ctx) - start
  {
    var here := SheetWrites(ctx, rowNumber, sheet, start);
    var cells := ObsMonthWrites(ctx, month);
    if k <= 6 {
      SheetWritesObservationMonth(ctx, rowNumber, sheet, start, k, month);
      if Continue(ctx, start + 36) {
        ContinueBelowBound(ctx, start + 36);
        WithinAppend(cells, here, RowWrites(ctx, rowNumber, sheet + 1, start + 36));
      }
    } else {
      assert Continue(ctx, start + 36);
      ContinueBelowBound(ctx, start + 36);
      RowWritesObservationMonth(ctx, rowNumber, sheet + 1, start + 36, k - 6, month);
      WithinPrepend(cells, RowWrites(ctx, rowNumber, sheet + 1, start + 36), here);
    }
  }

  /** The row of one patient. Its columns have distinct names, as the keys
      of the row's map. */
  function PatientRow(facts: PatientFacts, rowNumber: int, env: Env): (r: seq<Cell>)
    ensures DistinctNames(r)
  {
    var writes := RowWrites(Prepare(facts, env), rowNumber, 1, 0);
    ApplyLookup([], writes, "");
    Apply([], writes)
  }

  /** Each column of a patient's row holds the value last written under its
      name by some sheet, and a name no sheet writes is not a column. */
  lemma PatientRowHoldsLastWrites(facts: PatientFacts, rowNumber: int, env: Env, name: string)
    ensures Lookup(PatientRow(facts, rowNumber, env), name)
         == LastWrite(RowWrites(Prepare(facts, env), rowNumber, 1, 0), name)
  {
    ApplyLookup([], RowWrites(Prepare(facts, env), rowNumber, 1, 0), name);
  }

  /** The rows of the register in the order given, numbered from 1. */
  function Table(rows: seq<PatientFacts>, env: Env): (table: seq<seq<Cell>>)
    ensures |table| == |rows|
  {
    if rows == [] then []
    else Table(rows[..|rows| - 1], env) + [PatientRow(rows[|rows| - 1], |rows|, env)]
  }

  lemma TableSnoc(rows: seq<PatientFacts>, env: Env, i: nat)
    requires i < |rows|
    ensures Table(rows[..i + 1], env) == Table(rows[..i], env) + [PatientRow(rows[i], i + 1, env)]
  {
    assert rows[..i + 1][..i] == rows[..i];
  }

  lemma TableLast(rows: seq<PatientFacts>, env: Env)
    requires rows != []
    ensures Table(rows, env) == Table(rows[..|rows| - 1], env) + [PatientRow(rows[|rows| - 1], |rows|, env)]
  {
  }

  /** Row i of the table (counting from 0) is the row of the i-th patient,
      numbered i + 1. */
  lemma {:induction false} TableRows(rows: seq<PatientFacts>, env: Env, i: nat)
    requires i < |rows|
    ensures Table(rows, env)[i] == PatientRow(rows[i], i + 1, env)
  {
    var init := rows[..|rows| - 1];
    var front, last := Table(init, env), PatientRow(rows[|rows| - 1], |rows|, env);
    TableLast(rows, env);
    if i < |rows| - 1 {
      TableRows(init, env, i);
      assert init[i] == rows[i];
      assert (front + [last])[i] == front[i];
    } else {
      assert (front + [last])[i] == last;
    }
  }

  /** A log that ends in the first n drug months of a block, extended by
      the next one, ends in the first n + 1. */
  lemma DrugRunStep(ctx: RowContext, base: nat, n: nat, month: nat, prefix: seq<Cell>, log: seq<Cell>)
    requires month == base + n + 1
    requires log == prefix + DrugRun(ctx, base, n)
    ensures log + DrugMonthWrites(ctx, MonthName(month), MonthName(month) + "date", month)
         == prefix + DrugRun(ctx, base, n + 1)
  {
    assert DrugRun(ctx, base, n + 1)
        == DrugRun(ctx, base, n) + DrugMonthWrites(ctx, MonthName(month), MonthName(month) + "date", month);
    ConcatAssociative(prefix, DrugRun(ctx, base, n), DrugMonthWrites(ctx, MonthName(month), MonthName(month) + "date", month));
  }

  /** A log that ends in the first f blocks of a sheet, extended by the
      next one, ends in the first f + 1. */
  lemma BlocksStep(ctx: RowContext, start: nat, f: nat, base: nat, prefix: seq<Cell>, log: seq<Cell>)
    requires base == start + 6 * f
    requires log == prefix + Blocks(ctx, start, f)
    ensures log + BlockWrites(ctx, base) == prefix + Blocks(ctx, start, f + 1)
  {
    ConcatAssociative(prefix, Blocks(ctx, start, f), BlockWrites(ctx, base));
  }

  /** The static columns, month 0 and the blocks, logged one after the
      other, are the sheet. */
  lemma SheetLog(ctx: RowContext, rowNumber: int, sheet: nat, start: nat, prefix: seq<Cell>)
    ensures prefix + StaticWrites(ctx, rowNumber, sheet) + MonthZeroWrites(ctx, sheet, start) + Blocks(ctx, start, 6)
         == prefix + SheetWrites(ctx, rowNumber, sheet, start)
  {
    var s, z, b := StaticWrites(ctx, rowNumber, sheet), MonthZeroWrites(ctx, sheet, start), Blocks(ctx, start, 6);
    ConcatAssociative(prefix, s, z);
    ConcatAssociative(prefix, s + z, b);
  }

  // ---------------------------------------------------------------------
  // Properties

  /** One observation month as addPatientRow performs it, on a list from
      which every earlier window has been consumed: when the list is empty
      the column is untracked and the list stays empty; otherwise the
      observations within three months of the month are selected, the
      column shows the last of them ("" when there is none), and removing
      them leaves exactly the list the next observation month expects. */
  lemma ObservationMonthStep(ctx: RowContext, obs: seq<Obs>, month: int)
    ensures Pool(ctx, obs, month - 3) == [] ==>
      ReportAt(ctx, obs, month) == Untracked && Pool(ctx, obs, month + 3) == []
    ensures Pool(ctx, obs, month - 3) != [] ==> ctx.facts.anchor.Some?
    ensures Pool(ctx, obs, month - 3) != [] ==>
      var pool := Pool(ctx, obs, month - 3);
      var matches := ObsNearMonth(pool, ctx.facts.anchor.value, month);
      && ReportAt(ctx, obs, month) == (if matches == [] then Unmatched else Latest(Last(matches)))
      && RemoveAll(pool, matches) == Pool(ctx, obs, month + 3)
      && (matches == [] ==> pool == Pool(ctx, obs, month + 3))
  {
    match ctx.facts.anchor
    case None =>
    case Some(a) =>
      var pool := Above(obs, a, month - 3);
      ConsumeWindow(obs, a, month);
      AboveAbove(obs, a, month - 3, month + 3);
      FilterKeepsAll(pool, NotIn([]));
  }

  /** Where no sheet follows, no observation is left beyond the window. */
  lemma PoolsDrained(ctx: RowContext, last: nat)
    requires !Continue(ctx, last)
    ensures Pool(ctx, ctx.cd4, last + 3) == [] && Pool(ctx, ctx.stage, last + 3) == [] && Pool(ctx, ctx.tb, last + 3) == []
  {
  }

  /** Every observation left in a cleansed list lies within three months
      after the last month of the row. */
  lemma LastSheetDrains(ctx: RowContext, obs: seq<Obs>, o: Obs)
    requires obs == ctx.cd4 || obs == ctx.stage || obs == ctx.tb
    requires o in obs && ctx.facts.anchor.Some?
    ensures Distance(o, ctx.facts.anchor.value) <= 36 * SheetCount(ctx, 0) + 3
  {
    var last := 36 * SheetCount(ctx, 0);
    SheetCountEnds(ctx, 0, SheetCount(ctx, 0));
    PoolsDrained(ctx, last);
    assert o !in Above(obs, ctx.facts.anchor.value, last + 3);
  }

  /** Every observation of a cleansed list is consumed: it falls in the
      window of observation month 6k with k = (distance + 2) / 6 (the only
      such month, by InExactlyOneWindow), that month is written by the row
      (it is not after the last month of the last sheet), and its cells show
      the window's latest observation. That need not be this observation:
      EarlierMatchNeverShown says an earlier one is never shown. */
  lemma EveryObservationConsumed(ctx: RowContext, obs: seq<Obs>, o: Obs, rowNumber: int)
    requires Cleansed(ctx) && (obs == ctx.cd4 || obs == ctx.stage || obs == ctx.tb)
    requires o in obs
    ensures ctx.facts.anchor.Some?
    ensures var a := ctx.facts.anchor.value;
      var k := (Distance(o, a) + 2) / 6;
      && 1 <= k && 6 * k <= 36 * SheetCount(ctx, 0)
      && o in WindowAt(obs, a, k)
      && ReportAt(ctx, obs, 6 * k) == Latest(Last(WindowAt(obs, a, k)))
      && Within(ObsMonthWrites(ctx, 6 * k), RowWrites(ctx, rowNumber, 1, 0))
  {
    ObservationMonthOnSheets(ctx, obs, o);
    var k := (Distance(o, ctx.facts.anchor.value) + 2) / 6;
    RowWritesObservationMonth(ctx, rowNumber, 1, 0, k, 6 * k);
  }

  lemma ObservationMonthOnSheets(ctx: RowContext, obs: seq<Obs>, o: Obs)
    requires Cleansed(ctx) && (obs == ctx.cd4 || obs == ctx.stage || obs == ctx.tb)
    requires o in obs
    ensures ctx.facts.anchor.Some?
    ensures var a := ctx.facts.anchor.value;
      var k := (Distance(o, a) + 2) / 6;
      && 1 <= k && 6 * k <= 36 * SheetCount(ctx, 0)
      && o in WindowAt(obs, a, k)
      && ReportAt(ctx, obs, 6 * k) == Latest(Last(WindowAt(obs, a, k)))
  {
    var a := ctx.facts.anchor.value;
    var d, sheets := Distance(o, a), SheetCount(ctx, 0);
    assert Above(obs, a, GraceMonths) == obs;
    InExactlyOneWindow(obs, a, o);
    LastSheetDrains(ctx, obs, o);
    WindowMonthWithinSheets(d, sheets);
    assert 6 * ((d + 2) / 6) <= 36 * sheets;
    TrackedAtItsMonth(ctx, obs, o, a);
  }

  /** An observation month 6j only ever shows the last observation of its
      own window, and that observation's window is the j-th. */
  lemma ShownIsLastOfWindow(ctx: RowContext, obs: seq<Obs>, j: int)
    requires ctx.facts.anchor.Some?
    ensures var r := ReportAt(ctx, obs, 6 * j);
      var a := ctx.facts.anchor.value;
      r.Latest? ==>
        && WindowAt(obs, a, j) != [] && r.obs == Last(WindowAt(obs, a, j))
        && (Distance(r.obs, a) + 2) / 6 == j
  {
    var a := ctx.facts.anchor.value;
    var window := Between(obs, a, 6 * j - 3, 6 * j + 3);
    assert WindowAt(obs, a, j) == window;
    if ReportAt(ctx, obs, 6 * j).Latest? {
      assert window != [];
      var x := Last(window);
      assert x in window;
      var d := Distance(x, a);
      assert 6 * j - 3 < d <= 6 * j + 3;
    }
  }

  /** An observation that is not the last of its window is consumed
      without being shown: removeAll drops it with the window's other
      matches, and no observation month reports it. */
  lemma EarlierMatchNeverShown(ctx: RowContext, obs: seq<Obs>, o: Obs, j: int)
    requires ctx.facts.anchor.Some?
    requires var w := WindowAt(obs, ctx.facts.anchor.value, (Distance(o, ctx.facts.anchor.value) + 2) / 6);
      o in w && o != Last(w)
    ensures ReportAt(ctx, obs, 6 * j) != Latest(o)
  {
    ShownIsLastOfWindow(ctx, obs, j);
  }

  /** The observation month whose window holds `o` shows the latest
      observation of that window. */
  lemma TrackedAtItsMonth(ctx: RowContext, obs: seq<Obs>, o: Obs, a: Date)
    requires ctx.facts.anchor == Some(a) && o in obs
    requires (Distance(o, a) + 2) / 6 >= 1
    ensures var k := (Distance(o, a) + 2) / 6;
      o in WindowAt(obs, a, k) ==> ReportAt(ctx, obs, 6 * k) == Latest(Last(WindowAt(obs, a, k)))
  {
    var k := (Distance(o, a) + 2) / 6;
    assert o in Above(obs, a, 6 * k - 3);
  }

  /** An observation month 6k whose window reaches distance d lies within a
      run of whole sheets that covers d - 3. */
  lemma WindowMonthWithinSheets(d: int, sheets: nat)
    requires d <= 36 * sheets + 3
    ensures 6 * ((d + 2) / 6) <= 36 * sheets
  {
    var k := (d + 2) / 6;
    assert 6 * k <= d + 2;
    assert 6 * (k - 6 * sheets) <= 5;
  }

  /** An observation more than 39 months after the anchor is beyond the
      windows of the first sheet, so a second sheet follows. */
  lemma LateObservationAddsSheet(ctx: RowContext, o: Obs)
    requires ctx.facts.anchor.Some? && o in ctx.cd4
    requires Distance(o, ctx.facts.anchor.value) > 39
    ensures Continue(ctx, 36)
    ensures SheetCount(ctx, 0) >= 2
  {
    assert o in Pool(ctx, ctx.cd4, 36 + 3);
  }

  /** Without an anchor nothing is tracked and no drug is reported, so the
      row has exactly one sheet. */
  lemma NoAnchorOneSheet(ctx: RowContext, rowNumber: int)
    requires ctx.facts.anchor.None?
    ensures RowWrites(ctx, rowNumber, 1, 0) == SheetWrites(ctx, rowNumber, 1, 0)
    ensures SheetCount(ctx, 0) == 1
  {
    assert !Continue(ctx, 36);
  }

  /** With an anchor but no observations left after cleansing and no drug
      current at the month after the first sheet, there is exactly one
      sheet. */
  lemma NothingLaterOneSheet(ctx: RowContext)
    requires ctx.facts.anchor.Some?
    requires ctx.cd4 == [] && ctx.stage == [] && ctx.tb == []
    requires DrugCell(ctx, 37) == ""
    ensures SheetCount(ctx, 0) == 1
  {
    assert !Continue(ctx, 36);
  }

  /** What a drug column shows once its values are in: the names of the
      drugs current at that month under `name` and the month label under
      `dateName` when some drug is current (and no name holds a ";"),
      and "" with no date column written otherwise. */
  lemma DrugMonthShows(cells: seq<Cell>, ctx: RowContext, name: string, dateName: string, month: nat)
    requires DistinctNames(cells) && name != dateName
    ensures var after := Apply(cells, DrugMonthWrites(ctx, name, dateName, month));
      DrugCell(ctx, month) == "" ==>
        Lookup(after, name) == Some(Text("")) && Lookup(after, dateName) == Lookup(cells, dateName)
    ensures var after := Apply(cells, DrugMonthWrites(ctx, name, dateName, month));
      DrugCell(ctx, month) != "" ==>
        var target := AddMonths(ctx.facts.anchor.value, month);
        var names := CurrentDrugNames(ctx.drugs, target, ctx.env);
        ';' !in names ==>
          Lookup(after, name) == Some(Text(names)) && Lookup(after, dateName) == Some(Text(MonthYear(target)))
  {
    var writes := DrugMonthWrites(ctx, name, dateName, month);
    DrugsAtMonthSplit(ctx.drugs, ctx.facts.anchor, month, ctx.env);
    ApplyLookup(cells, writes, name);
    ApplyLookup(cells, writes, dateName);
  }

  /** The first month of a sheet is written twice under the same name: the
      whole drug cell first, then its first part, which is what the column
      keeps, so it shows the drug names and its date column the month label
      (or "" and no date column when no drug is current). */
  lemma MonthZeroShows(cells: seq<Cell>, ctx: RowContext, sheet: nat, start: nat)
    requires DistinctNames(cells)
    ensures var after := Apply(cells, MonthZeroWrites(ctx, sheet, start));
      DrugCell(ctx, start) == "" ==>
        && Lookup(after, MonthZeroName(sheet)) == Some(Text(""))
        && Lookup(after, MonthZeroName(sheet) + "date") == Lookup(cells, MonthZeroName(sheet) + "date")
    ensures var after := Apply(cells, MonthZeroWrites(ctx, sheet, start));
      DrugCell(ctx, start) != "" ==>
        var target := AddMonths(ctx.facts.anchor.value, start);
        var names := CurrentDrugNames(ctx.drugs, target, ctx.env);
        ';' !in names ==>
          && Lookup(after, MonthZeroName(sheet)) == Some(Text(names))
          && Lookup(after, MonthZeroName(sheet) + "date") == Some(Text(MonthYear(target)))
  {
    var name := MonthZeroName(sheet);
    var first := Cell(name, Text(DrugCell(ctx, start)));
    var rest := DrugMonthWrites(ctx, name, name + "date", start);
    assert |name + "date"| != |name|;
    ApplyConcat(cells, [first], rest);
    ApplySnoc(cells, [], first);
    assert [] + [first] == [first];
    PutSemantics(cells, first, name + "date");
    DrugMonthShows(Put(cells, first), ctx, name, name + "date", start);
  }
}
