/** addPatientRow and transformDataSet as the source performs them: a result
    row filled in column by column, and the cleansed observation lists
    consumed in place as the observation months report them. */
module Builder {
  import opened Optional
  import opened Text
  import opened Calendar
  import opened Seqs
  import opened Facts
  import opened Cleansers
  import opened Buckets
  import opened Rows
  import opened Register

  /** One observation column at an observation month, on a list from which
      every earlier window has been consumed: the observations within three
      months of the month are selected, the last of them is shown, and
      they are removed from the list (an empty list reports nothing and an
      empty selection removes nothing). */
  method LatestInWindow(ctx: RowContext, obs: seq<Obs>, pool: seq<Obs>, month: nat) returns (report: Report, rest: seq<Obs>)
    requires pool == Pool(ctx, obs, month - 3)
    ensures report == ReportAt(ctx, obs, month)
    ensures rest == Pool(ctx, obs, month + 3)
    ensures |rest| <= |pool|
  {
    ObservationMonthStep(ctx, obs, month);
    rest := pool;
    if |pool| > 0 {
      var valueToBeUsed := RetrieveCorrect6MonthsOb(month, pool, ctx.facts.anchor.value);
      report := Unmatched;
      if |valueToBeUsed| > 0 {
        for i := 0 to |valueToBeUsed|
          invariant i > 0 ==> report == Latest(valueToBeUsed[i - 1])
        {
          report := Latest(valueToBeUsed[i]);
        }
        rest := RemoveAll(pool, valueToBeUsed);
      }
    } else {
      report := Untracked;
    }
  }

  /** The test at the end of a sheet ending at month `last`: another sheet
      follows when an observation list still holds observations or some
      drug is current the month after. */
  method MoreSheets(ctx: RowContext, last: nat, cd4: seq<Obs>, stage: seq<Obs>, tb: seq<Obs>) returns (more: bool)
    requires cd4 == Pool(ctx, ctx.cd4, last + 3)
    requires stage == Pool(ctx, ctx.stage, last + 3)
    requires tb == Pool(ctx, ctx.tb, last + 3)
    ensures more == Continue(ctx, last)
  {
    var checkForDrugOrders := RetrieveCorrectMonthsOb(last + 1, ctx.drugs, ctx.facts.anchor, ctx.env);
    more := |cd4| > 0 || |stage| > 0 || |tb| > 0 || |checkForDrugOrders| > 0;
  }

  /** The state addPatientRow works on: the result row and the three
      observation lists it removes matched observations from. `written`
      is the log of every value added to the row, in order. */
  class PatientRowBuilder {
    var cells: seq<Cell>
    var cd4: seq<Obs>
    var stage: seq<Obs>
    var tb: seq<Obs>
    ghost var written: seq<Cell>

    /** The row holds exactly what adding the logged values to an empty
        row gives. */
    ghost predicate Valid()
      reads this
    {
      cells == Apply([], written)
    }

    constructor(cd4: seq<Obs>, stage: seq<Obs>, tb: seq<Obs>)
      ensures Valid() && cells == [] && written == []
      ensures this.cd4 == cd4 && this.stage == stage && this.tb == tb
    {
      cells := [];
      this.cd4, this.stage, this.tb := cd4, stage, tb;
      written := [];
    }

    /** DataSetRow.addColumnValue. */
    method AddColumnValue(c: Cell)
      requires Valid()
      modifies this
      ensures Valid() && cells == Put(old(cells), c)
      ensures written == old(written) + [c]
      ensures cd4 == old(cd4) && stage == old(stage) && tb == old(tb)
    {
      ApplySnoc([], written, c);
      cells := Put(cells, c);
      written := written + [c];
    }

    /** Several addColumnValue calls in a row. */
    method AddColumns(cs: seq<Cell>)
      requires Valid()
      modifies this
      ensures Valid() && written == old(written) + cs
      ensures cd4 == old(cd4) && stage == old(stage) && tb == old(tb)
    {
      ghost var w0 := written;
      for i := 0 to |cs|
        invariant Valid() && written == w0 + cs[..i]
        invariant cd4 == old(cd4) && stage == old(stage) && tb == old(tb)
      {
        AddColumnValue(cs[i]);
        assert cs[..i + 1] == cs[..i] + [cs[i]];
      }
      assert cs[..|cs|] == cs;
    }

    /** The sheet number, the anchor and the starting regimen. */
    method AddHeader(ctx: RowContext, rowNumber: int, sheet: nat)
      requires Valid()
      modifies this
      ensures Valid() && written == old(written) + HeaderWrites(ctx, rowNumber, sheet)
      ensures cd4 == old(cd4) && stage == old(stage) && tb == old(tb)
    {
      var regimen := Null;
      if ctx.facts.startingRegimen.Some? {
        regimen := Order(ctx.facts.startingRegimen.value);
      }
      AddColumns([ Cell(Numbered("No", sheet), Number(rowNumber)),
                   Cell(Numbered("Date of Debut of ARV/ART", sheet), OptionalDay(ctx.facts.anchor)),
                   Cell(Numbered("Date of Starting Regimen", sheet), regimen) ]);
    }

    /** The identity columns: lists print as their text, drug orders as
        their drug name. */
    method AddIdentity(ids: seq<Labelled<Value>>, sheet: nat)
      requires Valid()
      modifies this
      ensures Valid() && written == old(written) + IdentityWrites(ids, sheet)
      ensures cd4 == old(cd4) && stage == old(stage) && tb == old(tb)
    {
      ghost var w0 := written;
      ghost var writes := IdentityWrites(ids, sheet);
      for j := 0 to |ids|
        invariant Valid() && written == w0 + writes[..j]
        invariant cd4 == old(cd4) && stage == old(stage) && tb == old(tb)
      {
        var cellValue := ids[j].value;
        if cellValue.Listing? {
          cellValue := Text(cellValue.rendered);
        }
        if cellValue.Order? {
          cellValue := Text(DrugName(cellValue.order));
        }
        var c := Cell(Numbered(ids[j].heading, sheet), cellValue);
        assert c == writes[j];
        AddColumnValue(c);
        PrefixStep(writes, j);
        ConcatAssociative(w0, writes[..j], [c]);
      }
      PrefixWhole(writes);
    }

    /** Weight and stage at start (without "WHO STAGE"), then the initial
        CD4 count and percent, each with its date when it has one. */
    method AddInitialObservations(ctx: RowContext, sheet: nat)
      requires Valid()
      modifies this
      ensures Valid() && written == old(written) + ObservationWrites(ctx, sheet)
      ensures cd4 == old(cd4) && stage == old(stage) && tb == old(tb)
    {
      var weight := ctx.facts.weightAtStart;
      var stageText := ctx.facts.initialStage.value;
      if stageText.Some? {
        stageText := Some(ReplaceFirst(stageText.value, "WHO STAGE", ""));
      }
      var count := ctx.facts.initialCd4Count;
      var countValue := Null;
      if count.value.Some? {
        var result := count.value.value.value;
        if count.value.value.date.Some? {
          result := Some(Printed(result) + " " + IsoDay(count.value.value.date.value));
        }
        countValue := OptionalText(result);
      }
      var percent := ctx.facts.initialCd4Percent;
      var percentValue := Null;
      if percent.value.Some? {
        var result := percent.value.value.value;
        if percent.value.value.date.Some? {
          result := Some(Printed(result) + " " + IsoDay(percent.value.value.date.value));
        }
        percentValue := OptionalText(result);
      }
      AddColumns([ Cell(Numbered(weight.heading, sheet), OptionalText(weight.value.value)),
                   Cell(Numbered(weight.heading + " date", sheet), OptionalDay(weight.value.date)),
                   Cell(Numbered(ctx.facts.initialStage.heading, sheet), OptionalText(stageText)),
                   Cell(Numbered(count.heading, sheet), countValue),
                   Cell(Numbered(percent.heading, sheet), percentValue) ]);
    }

    /** A treatment column: the start and stop dates of its last order. */
    method AddTreatment(t: Labelled<seq<DrugOrder>>, sheet: nat)
      requires Valid()
      modifies this
      ensures Valid() && written == old(written) + TreatmentWrites(t, sheet)
      ensures cd4 == old(cd4) && stage == old(stage) && tb == old(tb)
    {
      var startDate: Option<Date> := None;
      var endDate: Option<Date> := None;
      for i := 0 to |t.value|
        invariant i == 0 ==> startDate.None? && endDate.None?
        invariant i > 0 ==> startDate == Some(t.value[i - 1].effectiveStart) && endDate == t.value[i - 1].effectiveStop
      {
        startDate := Some(t.value[i].effectiveStart);
        endDate := t.value[i].effectiveStop;
      }
      AddColumns([ Cell(Numbered("start " + t.heading, sheet), OptionalDay(startDate)),
                   Cell(Numbered("end " + t.heading, sheet), OptionalDay(endDate)) ]);
    }

    /** The four pregnancy columns. */
    method AddPregnancies(deliveries: Option<seq<Obs>>, sheet: nat)
      requires Valid()
      modifies this
      ensures Valid() && written == old(written) + PregnancyWrites(deliveries, sheet)
      ensures cd4 == old(cd4) && stage == old(stage) && tb == old(tb)
    {
      var columns: seq<Cell> := [];
      for m := 0 to 4
        invariant |columns| == m
        invariant forall k :: 0 <= k < m ==> columns[k] == PregnancyWrites(deliveries, sheet)[k]
      {
        var columnName := Numbered(Numbered("Pregnancy ", m), sheet);
        var value := Null;
        if deliveries.Some? && |deliveries.value| > m {
          value := Text(deliveries.value[m].valueText);
        }
        columns := columns + [Cell(columnName, value)];
      }
      AddColumns(columns);
    }

    /** The initial regimen and the two change summaries. */
    method AddRegimens(ctx: RowContext, sheet: nat)
      requires Valid()
      modifies this
      ensures Valid() && written == old(written) + RegimenWrites(ctx, sheet)
      ensures cd4 == old(cd4) && stage == old(stage) && tb == old(tb)
    {
      var drugName := DrugMissing;
      if ctx.facts.initialRegimen.Some? {
        drugName := DrugName(ctx.facts.initialRegimen.value);
      }
      AddColumns([ Cell(Numbered("Initial Regimen", sheet), Text(drugName)),
                   Cell(Numbered("First Line Changes", sheet), Text(ctx.firstLineChanges)),
                   Cell(Numbered("Second Line Changes", sheet), Text(ctx.secondLineChanges)) ]);
    }

    /** The columns every sheet repeats. */
    method AddStaticColumns(ctx: RowContext, rowNumber: int, sheet: nat)
      requires Valid()
      modifies this
      ensures Valid() && written == old(written) + StaticWrites(ctx, rowNumber, sheet)
      ensures cd4 == old(cd4) && stage == old(stage) && tb == old(tb)
    {
      ghost var w0 := written;
      ghost var acc := HeaderWrites(ctx, rowNumber, sheet);
      AddHeader(ctx, rowNumber, sheet);
      ghost var part := IdentityWrites(ctx.facts.identity, sheet);
      AddIdentity(ctx.facts.identity, sheet);
      ConcatAssociative(w0, acc, part);
      acc := acc + part;
      part := ObservationWrites(ctx, sheet);
      AddInitialObservations(ctx, sheet);
      ConcatAssociative(w0, acc, part);
      acc := acc + part;
      part := TreatmentWrites(ctx.facts.ctxTreatment, sheet);
      AddTreatment(ctx.facts.ctxTreatment, sheet);
      ConcatAssociative(w0, acc, part);
      acc := acc + part;
      part := TreatmentWrites(ctx.facts.tbTreatment, sheet);
      AddTreatment(ctx.facts.tbTreatment, sheet);
      ConcatAssociative(w0, acc, part);
      acc := acc + part;
      part := PregnancyWrites(ctx.facts.pregnancyDeliveryDates, sheet);
      AddPregnancies(ctx.facts.pregnancyDeliveryDates, sheet);
      ConcatAssociative(w0, acc, part);
      acc := acc + part;
      part := RegimenWrites(ctx, sheet);
      AddRegimens(ctx, sheet);
      ConcatAssociative(w0, acc, part);
      acc := acc + part;
    }

    /** A drug cell split on ";" into the month column and, when there is a
        second part, the month's date column. */
    method AddDrugCell(ctx: RowContext, name: string, dateName: string, month: nat, cellValue: string)
      requires Valid() && cellValue == DrugCell(ctx, month)
      modifies this
      ensures Valid() && written == old(written) + DrugMonthWrites(ctx, name, dateName, month)
      ensures cd4 == old(cd4) && stage == old(stage) && tb == old(tb)
    {
      DrugsAtMonthSplit(ctx.drugs, ctx.facts.anchor, month, ctx.env);
      var cellValues := JavaSplit(cellValue, ';');
      if |cellValues| > 1 {
        AddColumns([Cell(name, Text(cellValues[0])), Cell(dateName, Text(cellValues[1]))]);
      } else {
        AddColumns([Cell(name, Text(cellValues[0]))]);
      }
    }

    /** Month 0 of a sheet: the whole drug cell, then its split parts. */
    method AddMonthZero(ctx: RowContext, sheet: nat, start: nat)
      requires Valid()
      modifies this
      ensures Valid() && written == old(written) + MonthZeroWrites(ctx, sheet, start)
      ensures cd4 == old(cd4) && stage == old(stage) && tb == old(tb)
    {
      var drugCellValue := RetrieveCorrectMonthsOb(start, ctx.drugs, ctx.facts.anchor, ctx.env);
      var monthZero := MonthZeroName(sheet);
      ghost var w0 := written;
      AddColumnValue(Cell(monthZero, Text(drugCellValue)));
      AddDrugCell(ctx, monthZero, monthZero + "date", start, drugCellValue);
      ConcatAssociative(w0, [Cell(monthZero, Text(drugCellValue))], DrugMonthWrites(ctx, monthZero, monthZero + "date", start));
    }

    /** An observation month: the CD4 value and date, the stage and the TB
        column, each list consuming the observations of its window. */
    method AddObservationMonth(ctx: RowContext, month: nat)
      requires Valid()
      requires cd4 == Pool(ctx, ctx.cd4, month - 3)
      requires stage == Pool(ctx, ctx.stage, month - 3)
      requires tb == Pool(ctx, ctx.tb, month - 3)
      modifies this
      ensures Valid() && written == old(written) + ObsMonthWrites(ctx, month)
      ensures cd4 == Pool(ctx, ctx.cd4, month + 3)
      ensures stage == Pool(ctx, ctx.stage, month + 3)
      ensures tb == Pool(ctx, ctx.tb, month + 3)
    {
      var cd4Report, stageReport, tbReport;
      cd4Report, cd4 := LatestInWindow(ctx, ctx.cd4, cd4, month);
      stageReport, stage := LatestInWindow(ctx, ctx.stage, stage, month);
      tbReport, tb := LatestInWindow(ctx, ctx.tb, tb, month);
      AddColumns([ Cell(Numbered("CD4 ", month), ReportText(cd4Report)),
                   Cell(Numbered("CD4 date", month), ReportDate(cd4Report)),
                   Cell(Numbered("Stage ", month), ReportStageText(stageReport)),
                   Cell(Numbered("TB ", month), ReportText(tbReport)) ]);
    }

    /** Five drug months after `base`, then the observation month base + 6. */
    method AddBlock(ctx: RowContext, base: nat)
      requires Valid()
      requires cd4 == Pool(ctx, ctx.cd4, base + 3)
      requires stage == Pool(ctx, ctx.stage, base + 3)
      requires tb == Pool(ctx, ctx.tb, base + 3)
      modifies this
      ensures Valid() && written == old(written) + BlockWrites(ctx, base)
      ensures cd4 == Pool(ctx, ctx.cd4, base + 9)
      ensures stage == Pool(ctx, ctx.stage, base + 9)
      ensures tb == Pool(ctx, ctx.tb, base + 9)
    {
      ghost var w0 := written;
      for n := 0 to 5
        invariant Valid() && written == w0 + DrugRun(ctx, base, n)
        invariant cd4 == old(cd4) && stage == old(stage) && tb == old(tb)
      {
        var month := base + n + 1;
        var cellValue := RetrieveCorrectMonthsOb(month, ctx.drugs, ctx.facts.anchor, ctx.env);
        var columnName := MonthName(month);
        ghost var w := written;
        AddDrugCell(ctx, columnName, columnName + "date", month, cellValue);
        DrugRunStep(ctx, base, n, month, w0, w);
      }
      AddObservationMonth(ctx, base + 6);
      ConcatAssociative(w0, DrugRun(ctx, base, 5), ObsMonthWrites(ctx, base + 6));
    }

    /** The static columns and month 0 of a sheet. */
    method AddSheetHead(ctx: RowContext, rowNumber: int, sheet: nat, start: nat)
      requires Valid()
      modifies this
      ensures Valid() && written == old(written) + StaticWrites(ctx, rowNumber, sheet) + MonthZeroWrites(ctx, sheet, start)
      ensures cd4 == old(cd4) && stage == old(stage) && tb == old(tb)
    {
      AddStaticColumns(ctx, rowNumber, sheet);
      AddMonthZero(ctx, sheet, start);
    }

    /** The six blocks of the sheet starting at month `start`. */
    method AddBlocks(ctx: RowContext, start: nat) returns (month: nat)
      requires Valid()
      requires cd4 == Pool(ctx, ctx.cd4, start + 3)
      requires stage == Pool(ctx, ctx.stage, start + 3)
      requires tb == Pool(ctx, ctx.tb, start + 3)
      modifies this
      ensures Valid() && written == old(written) + Blocks(ctx, start, 6)
      ensures month == start + 36
      ensures cd4 == Pool(ctx, ctx.cd4, month + 3)
      ensures stage == Pool(ctx, ctx.stage, month + 3)
      ensures tb == Pool(ctx, ctx.tb, month + 3)
    {
      ghost var w0 := written;
      month := start;
      for f := 0 to 6
        invariant Valid() && written == w0 + Blocks(ctx, start, f)
        invariant month == start + 6 * f
        invariant cd4 == Pool(ctx, ctx.cd4, month + 3)
        invariant stage == Pool(ctx, ctx.stage, month + 3)
        invariant tb == Pool(ctx, ctx.tb, month + 3)
      {
        ghost var w := written;
        AddBlock(ctx, month);
        BlocksStep(ctx, start, f, month, w0, w);
        month := month + 6;
      }
    }

    /** One sheet of addPatientRow, from month `start`: its static columns,
        month 0, six blocks, then the probe that decides whether another
        sheet follows: observations left in some list, or a drug current
        the month after the sheet's last. */
    method AddSheet(ctx: RowContext, rowNumber: int, sheet: nat, start: nat) returns (month: nat, more: bool)
      requires Valid()
      requires cd4 == Pool(ctx, ctx.cd4, start + 3)
      requires stage == Pool(ctx, ctx.stage, start + 3)
      requires tb == Pool(ctx, ctx.tb, start + 3)
      modifies this
      ensures Valid() && written == old(written) + SheetWrites(ctx, rowNumber, sheet, start)
      ensures month == start + 36 && more == Continue(ctx, month)
      ensures cd4 == Pool(ctx, ctx.cd4, month + 3)
      ensures stage == Pool(ctx, ctx.stage, month + 3)
      ensures tb == Pool(ctx, ctx.tb, month + 3)
    {
      ghost var w0 := written;
      AddSheetHead(ctx, rowNumber, sheet, start);
      month := AddBlocks(ctx, start);
      SheetLog(ctx, rowNumber, sheet, start, w0);
      more := MoreSheets(ctx, month, cd4, stage, tb);
    }

    /** addPatientRow: sheet after sheet, each one starting where the
        previous ended, while observations or current drugs remain. The
        recursion of the source is a loop here. The row ends up holding
        what the specification writes, and every observation list is used
        up. */
    method AddPatientRow(ctx: RowContext, rowNumber: int)
      requires Valid() && Cleansed(ctx)
      requires cd4 == ctx.cd4 && stage == ctx.stage && tb == ctx.tb
      modifies this
      ensures Valid() && written == old(written) + RowWrites(ctx, rowNumber, 1, 0)
      ensures cd4 == [] && stage == [] && tb == []
    {
      ghost var w0 := written;
      var sheet: nat, start: nat := 1, 0;
      var more := true;
      CleansedPools(ctx);
      assert start + 3 == GraceMonths;
      while more
        invariant Valid()
        invariant more ==> w0 + RowWrites(ctx, rowNumber, 1, 0) == written + RowWrites(ctx, rowNumber, sheet, start)
        invariant more ==> start <= Bound(ctx)
        invariant more ==> cd4 == Pool(ctx, ctx.cd4, start + 3)
        invariant more ==> stage == Pool(ctx, ctx.stage, start + 3)
        invariant more ==> tb == Pool(ctx, ctx.tb, start + 3)
        invariant !more ==> written == w0 + RowWrites(ctx, rowNumber, 1, 0)
        invariant !more ==> cd4 == [] && stage == [] && tb == []
        decreases if more then Bound(ctx) - start + 1 else 0
      {
        ghost var w := written;
        var month;
        month, more := AddSheet(ctx, rowNumber, sheet, start);
        if more {
          ContinueBelowBound(ctx, month);
          ConcatAssociative(w, SheetWrites(ctx, rowNumber, sheet, start), RowWrites(ctx, rowNumber, sheet + 1, month));
          sheet, start := sheet + 1, month;
        }
      }
    }
  }

  /** One row of transformDataSet: the patient's drug orders and
      observations cleansed, the regimen changes summarised, and the row
      pivoted into a fresh result row. */
  method BuildPatientRow(row: PatientFacts, rowNumber: int, env: Env) returns (cells: seq<Cell>)
    ensures cells == PatientRow(row, rowNumber, env)
  {
    var startingDate := row.anchor;
    var drugsValue := CleanseDrugsList(row.artDrugs, startingDate);
    var cd4Value := CleanseObsList(row.cd4Obs, startingDate);
    var stageValue := CleanseObsList(row.stageObs, startingDate);
    var tbValue := CleanseObsList(row.tbObs, startingDate);
    var firstLineChange := CleanseDrugsList(row.firstLineChanges, startingDate);
    var secondLineChange := CleanseDrugsList(row.secondLineChanges, startingDate);
    var firstLineChangeStr := GetDiscontinuedReasons(firstLineChange);
    var secondLineChangeStr := GetDiscontinuedReasons(secondLineChange);
    var ctx := RowContext(row, drugsValue, cd4Value, stageValue, tbValue, firstLineChangeStr, secondLineChangeStr, env);
    assert ctx == Prepare(row, env);
    var rr := new PatientRowBuilder(cd4Value, stageValue, tbValue);
    rr.AddPatientRow(ctx, rowNumber);
    cells := rr.cells;
    assert [] + RowWrites(ctx, rowNumber, 1, 0) == RowWrites(ctx, rowNumber, 1, 0);
    assert PatientRow(row, rowNumber, env) == Apply([], RowWrites(ctx, rowNumber, 1, 0));
  }

  /** transformDataSet without the sort: the rows numbered from 1, each
      pivoted on its own. */
  method TransformRows(rows: seq<PatientFacts>, env: Env) returns (table: seq<seq<Cell>>)
    ensures table == Table(rows, env)
  {
    table := [];
    for i := 0 to |rows|
      invariant table == Table(rows[..i], env)
    {
      var cells := BuildPatientRow(rows[i], i + 1, env);
      TableSnoc(rows, env, i);
      table := table + [cells];
    }
    assert rows[..|rows|] == rows;
  }
}
