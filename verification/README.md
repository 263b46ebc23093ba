# ART register pivot

This project models the heart of the Rwanda reports HIV ART register:
`HIVARTRegisterDataSetDefinitionEvaluator`. The evaluator turns one evaluated
patient row (start date, regimens, CD4, stage and TB observations, ART drug
orders) into one wide register row. The row is built sheet by sheet. Each
sheet covers 36 months from the ART start (the anchor) and repeats the
patient's static columns and its Month 0 drug column. Then come six
blocks: five months with a drug column each, and an observation month
(the sixth, twelfth, ... month of the sheet) with CD4, CD4 date, stage
and TB columns instead of a drug column. A new sheet follows while
observations or current drugs remain.

The model is in Dafny and has these modules:

- `Calendar`: Gregorian dates, months arithmetic and the two date formats.
- `Text`: the `String`/`Integer` behaviour relied on (decimal printing, `replaceFirst`, `split`).
- `Cleansers`: the two list cleansers.
- `Buckets`: the observation windows, the monthly drug probe and the discontinuation summary.
- `Rows`: a result row as a name-keyed, insertion-ordered cell list.
- `Register`: the row the pivot must produce, stated as the run of cell writes per sheet.
- `Builder`: the imperative code that writes it, a `PatientRowBuilder` class with one method per section of `addPatientRow`. Its sheet recursion becomes a `while` loop.

Every builder method is proved to append exactly the writes that the
`Register` functions specify. The lemmas about those functions state what the
register promises:

- every cleansed observation falls in (is consumed by) the window of exactly one observation month, and that month lies on some sheet of the row;
- that month shows only the window's last observation; earlier observations in the same window are removed without being shown;
- the sheet loop ends;
- later writes to the Month 0 column replace earlier ones in place.

## Model

| member | source | states |
|---|---|---|
| Calendar.MonthsDifference | api/src/main/java/org/openmrs/module/rwandareports/dataset/evaluator/HIVARTRegisterDataSetDefinitionEvaluator.java:582-599 | the months difference is 12 × year difference plus month difference, i.e. the gap between the two calendar-month indices |
| Calendar.MonthsDifferenceIgnoresDay | api/src/main/java/org/openmrs/module/rwandareports/dataset/evaluator/HIVARTRegisterDataSetDefinitionEvaluator.java:591-597 | the day of month and time of day never influence the difference; two dates in the same month are 0 apart |
| Calendar.MonthsDifferenceAcrossMonthEnd | api/src/main/java/org/openmrs/module/rwandareports/dataset/evaluator/HIVARTRegisterDataSetDefinitionEvaluator.java:591-597 | Jan 31 to Feb 1, and Dec 31 to the next Jan 1, are one month apart |
| Calendar.AddMonths | api/src/main/java/org/openmrs/module/rwandareports/dataset/evaluator/HIVARTRegisterDataSetDefinitionEvaluator.java:535-537 | Calendar.add(MONTH, k) lands k calendar months later and keeps the time of day; the day is kept when the target month is long enough and otherwise clamped to that month's last day |
| Calendar.Before | api/src/main/java/org/openmrs/module/rwandareports/dataset/evaluator/HIVARTRegisterDataSetDefinitionEvaluator.java:541 | Calendar.before: strictly earlier in (year, month, day, time of day) order; related to month indices by BeforeMonthIndex |
| Calendar.MonthsDifferenceOfAddMonths | api/src/main/java/org/openmrs/module/rwandareports/dataset/evaluator/HIVARTRegisterDataSetDefinitionEvaluator.java:582-599 | adding k months and taking the months difference gives back k |
| Calendar.BeforeMonthIndex | api/src/main/java/org/openmrs/module/rwandareports/dataset/evaluator/HIVARTRegisterDataSetDefinitionEvaluator.java:541 | a date before another is in the same or an earlier month, and an earlier month is before |
| Calendar.DayOfYear | api/src/main/java/org/openmrs/module/rwandareports/dataset/evaluator/HIVARTRegisterDataSetDefinitionEvaluator.java:522-523 | DAY_OF_YEAR, at least 1; DayOfYearIdentifiesDay shows it identifies the day within a year |
| Calendar.DayOfYearIdentifiesDay | api/src/main/java/org/openmrs/module/rwandareports/dataset/evaluator/HIVARTRegisterDataSetDefinitionEvaluator.java:522-523 | within one year, equal DAY_OF_YEAR means the same calendar day, in both directions |
| Calendar.DaysBeforeMonthGrows | api/src/main/java/org/openmrs/module/rwandareports/dataset/evaluator/HIVARTRegisterDataSetDefinitionEvaluator.java:522-523 | a later month starts at least a whole month of days later in the year |
| Calendar.IsoDay | api/src/main/java/org/openmrs/module/rwandareports/dataset/evaluator/HIVARTRegisterDataSetDefinitionEvaluator.java:616-617 | the yyyy-MM-dd text has at least ten characters and no ";" |
| Calendar.IsoDayExample | api/src/main/java/org/openmrs/module/rwandareports/dataset/evaluator/HIVARTRegisterDataSetDefinitionEvaluator.java:616-617 | the stop dates 10 January 2020 and 15 February 2020 print as "2020-01-10" and "2020-02-15" |
| Calendar.MonthYear | api/src/main/java/org/openmrs/module/rwandareports/dataset/evaluator/HIVARTRegisterDataSetDefinitionEvaluator.java:563 | the "MMM yyyy" label has at least eight characters and no ";", so it survives the split on ";" whole |
| Text.DecimalRoundTrip | api/src/main/java/org/openmrs/module/rwandareports/dataset/evaluator/HIVARTRegisterDataSetDefinitionEvaluator.java:246-248 | the printed sheet and month numbers in column names read back as the number, so different numbers print differently (used by DecimalTextInjective) |
| Text.DecimalTextInjective | api/src/main/java/org/openmrs/module/rwandareports/dataset/evaluator/HIVARTRegisterDataSetDefinitionEvaluator.java:405 | different numbers print as different decimal texts |
| Text.ReplaceFirst | api/src/main/java/org/openmrs/module/rwandareports/dataset/evaluator/HIVARTRegisterDataSetDefinitionEvaluator.java:302-310 | text without the pattern is unchanged; otherwise the first occurrence, at the first index where the pattern starts, is replaced by the replacement and the text before and after it is kept |
| Text.SplitLabelled | api/src/main/java/org/openmrs/module/rwandareports/dataset/evaluator/HIVARTRegisterDataSetDefinitionEvaluator.java:388-394 | split(";") of names;label gives the pieces of the names then the label, exactly [names, label] when the names hold no ";" |
| Text.JavaSplit | api/src/main/java/org/openmrs/module/rwandareports/dataset/evaluator/HIVARTRegisterDataSetDefinitionEvaluator.java:389 | String.split on one character: a text without the separator is a one-element array holding the text |
| Text.FoldJoinIsJoin | api/src/main/java/org/openmrs/module/rwandareports/dataset/evaluator/HIVARTRegisterDataSetDefinitionEvaluator.java:553-557 | the separator-when-non-empty fold of non-empty items is the plain join, empty exactly when there are no items |
| Text.FoldJoinEmpty | api/src/main/java/org/openmrs/module/rwandareports/dataset/evaluator/HIVARTRegisterDataSetDefinitionEvaluator.java:604-620 | the fold is empty exactly when every item is empty |
| Cleansers.Above | api/src/main/java/org/openmrs/module/rwandareports/dataset/evaluator/HIVARTRegisterDataSetDefinitionEvaluator.java:499-505 | an observation is kept exactly when its months difference from the anchor exceeds the bound |
| Cleansers.CleansedObs | api/src/main/java/org/openmrs/module/rwandareports/dataset/evaluator/HIVARTRegisterDataSetDefinitionEvaluator.java:493-508 | with no start date the list is empty; otherwise an observation is kept exactly when it is more than 3 months after the start date |
| Cleansers.GraceWindowBoundary | api/src/main/java/org/openmrs/module/rwandareports/dataset/evaluator/HIVARTRegisterDataSetDefinitionEvaluator.java:502 | an observation exactly 3 months out is dropped, one 4 months out is kept |
| Cleansers.CleansedObsCount | api/src/main/java/org/openmrs/module/rwandareports/dataset/evaluator/HIVARTRegisterDataSetDefinitionEvaluator.java:499-505 | every occurrence of a kept observation stays, and no occurrence of a dropped one |
| Cleansers.CleansedObsOrder | api/src/main/java/org/openmrs/module/rwandareports/dataset/evaluator/HIVARTRegisterDataSetDefinitionEvaluator.java:499-505 | cleansing keeps list order (it distributes over concatenation) |
| Cleansers.CleanseObsList | api/src/main/java/org/openmrs/module/rwandareports/dataset/evaluator/HIVARTRegisterDataSetDefinitionEvaluator.java:493-508 | the loop returns exactly the cleansed list |
| Cleansers.CleansedOrders | api/src/main/java/org/openmrs/module/rwandareports/dataset/evaluator/HIVARTRegisterDataSetDefinitionEvaluator.java:510-529 | with no start date the list is empty; otherwise an order is kept exactly when it starts on the start date's day or later |
| Cleansers.CleansedOrdersFromAnchorDay | api/src/main/java/org/openmrs/module/rwandareports/dataset/evaluator/HIVARTRegisterDataSetDefinitionEvaluator.java:518-526 | the same-year-and-day-of-year test or the after test keeps an order exactly when it does not start on an earlier calendar day, so an order earlier on the start day is kept |
| Cleansers.CleansedOrdersExact | api/src/main/java/org/openmrs/module/rwandareports/dataset/evaluator/HIVARTRegisterDataSetDefinitionEvaluator.java:518-526 | every occurrence of a kept order stays, none of a dropped one, in list order |
| Cleansers.CleanseDrugsList | api/src/main/java/org/openmrs/module/rwandareports/dataset/evaluator/HIVARTRegisterDataSetDefinitionEvaluator.java:510-529 | the loop returns exactly the cleansed order list |
| Buckets.ObsNearMonth | api/src/main/java/org/openmrs/module/rwandareports/dataset/evaluator/HIVARTRegisterDataSetDefinitionEvaluator.java:569-580 | an observation is selected exactly when its months difference is within 3 of the month |
| Buckets.ObsNearMonthExact | api/src/main/java/org/openmrs/module/rwandareports/dataset/evaluator/HIVARTRegisterDataSetDefinitionEvaluator.java:571-577 | selection keeps every occurrence of a selected observation, and list order |
| Buckets.RetrieveCorrect6MonthsOb | api/src/main/java/org/openmrs/module/rwandareports/dataset/evaluator/HIVARTRegisterDataSetDefinitionEvaluator.java:569-580 | the loop returns exactly the observations near the month |
| Buckets.RemoveAll | api/src/main/java/org/openmrs/module/rwandareports/dataset/evaluator/HIVARTRegisterDataSetDefinitionEvaluator.java:436 | removeAll keeps exactly the observations not in the removed list |
| Buckets.ConsumptionPartitions | api/src/main/java/org/openmrs/module/rwandareports/dataset/evaluator/HIVARTRegisterDataSetDefinitionEvaluator.java:424-436 | the matches and what removeAll leaves split the list (as multisets), and nothing left is in the window |
| Buckets.Between | api/src/main/java/org/openmrs/module/rwandareports/dataset/evaluator/HIVARTRegisterDataSetDefinitionEvaluator.java:424-436 | an observation is in the span exactly when its difference lies in (low, high] |
| Buckets.ConsumeWindow | api/src/main/java/org/openmrs/module/rwandareports/dataset/evaluator/HIVARTRegisterDataSetDefinitionEvaluator.java:424-436 | on a list with every earlier window consumed, the matches of month m are the original observations in (m-3, m+3], and afterwards only those beyond m+3 remain |
| Buckets.InExactlyOneWindow | api/src/main/java/org/openmrs/module/rwandareports/dataset/evaluator/HIVARTRegisterDataSetDefinitionEvaluator.java:420-482 | a cleansed observation falls in (is consumed by) the window of observation month 6k for k = (difference + 2) / 6 and of no other |
| Buckets.DrugsAtMonth | api/src/main/java/org/openmrs/module/rwandareports/dataset/evaluator/HIVARTRegisterDataSetDefinitionEvaluator.java:531-567 | empty with no start date, or when start + month months is not before now, or when no order is current; and in the other direction, when the month is before now and some order is current, exactly the current drug names, ";" and the "MMM yyyy" label |
| Buckets.DrugsAtMonthSplit | api/src/main/java/org/openmrs/module/rwandareports/dataset/evaluator/HIVARTRegisterDataSetDefinitionEvaluator.java:400-418 | an empty drug cell splits to [""]; a non-empty one into at least two parts, [names, label] when no name holds ";" |
| Buckets.DrugsAtMonthBoundedByNow | api/src/main/java/org/openmrs/module/rwandareports/dataset/evaluator/HIVARTRegisterDataSetDefinitionEvaluator.java:535-541 | a non-empty drug cell is only possible for month offsets up to the months difference of now from the start |
| Buckets.CurrentDrugNamesFold | api/src/main/java/org/openmrs/module/rwandareports/dataset/evaluator/HIVARTRegisterDataSetDefinitionEvaluator.java:543-559 | the names text is the ","-fold of the names of the current orders, in list order |
| Buckets.CurrentDrugNamesJoin | api/src/main/java/org/openmrs/module/rwandareports/dataset/evaluator/HIVARTRegisterDataSetDefinitionEvaluator.java:543-559 | with non-empty drug names, the text is the ","-join of the current orders' names, and empty exactly when no order is current |
| Buckets.CurrentDrugNames | api/src/main/java/org/openmrs/module/rwandareports/dataset/evaluator/HIVARTRegisterDataSetDefinitionEvaluator.java:543-559 | the loop over the orders that adds the name of each current one after a "," when the text is non-empty; stated as a fold and a join by CurrentDrugNamesFold and CurrentDrugNamesJoin |
| Buckets.RetrieveCorrectMonthsOb | api/src/main/java/org/openmrs/module/rwandareports/dataset/evaluator/HIVARTRegisterDataSetDefinitionEvaluator.java:531-567 | the loop returns exactly the drug cell of the month |
| Buckets.Names | api/src/main/java/org/openmrs/module/rwandareports/dataset/evaluator/HIVARTRegisterDataSetDefinitionEvaluator.java:545-551 | one name per order, the drug's name or "Drug Missing" |
| Facts.DrugName | api/src/main/java/org/openmrs/module/rwandareports/dataset/evaluator/HIVARTRegisterDataSetDefinitionEvaluator.java:545-551 | the drug's name, or "Drug Missing" when the order has no drug |
| Buckets.Entries | api/src/main/java/org/openmrs/module/rwandareports/dataset/evaluator/HIVARTRegisterDataSetDefinitionEvaluator.java:610-618 | one discontinuation entry per order |
| Buckets.DiscontinuedReasonsFold | api/src/main/java/org/openmrs/module/rwandareports/dataset/evaluator/HIVARTRegisterDataSetDefinitionEvaluator.java:601-623 | the summary is the " , "-fold of the entries of the discontinued orders, in list order |
| Buckets.DiscontinuedReasonsJoin | api/src/main/java/org/openmrs/module/rwandareports/dataset/evaluator/HIVARTRegisterDataSetDefinitionEvaluator.java:601-623 | when every discontinued order has a non-empty entry, the summary is their " , "-join, and empty exactly when no order is discontinued |
| Buckets.DiscontinuedReasons | api/src/main/java/org/openmrs/module/rwandareports/dataset/evaluator/HIVARTRegisterDataSetDefinitionEvaluator.java:601-623 | the loop over the orders that adds the entry of each discontinued one after " , " when the summary is non-empty; stated as a fold and a join by DiscontinuedReasonsFold and DiscontinuedReasonsJoin |
| Buckets.FullEntry | api/src/main/java/org/openmrs/module/rwandareports/dataset/evaluator/HIVARTRegisterDataSetDefinitionEvaluator.java:610-618 | an order with drug, reason and stop date contributes "name - reason:yyyy-MM-dd" |
| Buckets.DiscontinuedReasonsPair | api/src/main/java/org/openmrs/module/rwandareports/dataset/evaluator/HIVARTRegisterDataSetDefinitionEvaluator.java:604-620 | two discontinued orders, the first with a non-empty entry, give first entry, " , ", second entry |
| Buckets.DiscontinuedReasonsExample | api/src/main/java/org/openmrs/module/rwandareports/dataset/evaluator/HIVARTRegisterDataSetDefinitionEvaluator.java:601-623 | two full discontinued orders give "AZT - toxicity:date , 3TC - stock-out:date" |
| Buckets.DiscontinuedReasonsLiteral | api/src/main/java/org/openmrs/module/rwandareports/dataset/evaluator/HIVARTRegisterDataSetDefinitionEvaluator.java:601-623 | two full discontinued orders stopped on 10 January and 15 February 2020 give exactly "AZT - toxicity:2020-01-10 , 3TC - stock-out:2020-02-15" |
| Buckets.DiscontinuedReasonsDanglingSeparator | api/src/main/java/org/openmrs/module/rwandareports/dataset/evaluator/HIVARTRegisterDataSetDefinitionEvaluator.java:606-618 | a discontinued order with no reason and no stop date after a non-empty summary leaves a trailing " , " |
| Buckets.GetDiscontinuedReasons | api/src/main/java/org/openmrs/module/rwandareports/dataset/evaluator/HIVARTRegisterDataSetDefinitionEvaluator.java:601-623 | the loop returns exactly the discontinuation summary |
| Rows.IndexOfName | api/src/main/java/org/openmrs/module/rwandareports/dataset/evaluator/HIVARTRegisterDataSetDefinitionEvaluator.java:385-390 | finds the first column with the name, or reports that there is none |
| Rows.Put | api/src/main/java/org/openmrs/module/rwandareports/dataset/evaluator/HIVARTRegisterDataSetDefinitionEvaluator.java:385-390 | addColumnValue: the written cell is in the row, every existing column keeps its name and place, and the row grows by at most one column |
| Rows.PutSemantics | api/src/main/java/org/openmrs/module/rwandareports/dataset/evaluator/HIVARTRegisterDataSetDefinitionEvaluator.java:385-390 | addColumnValue keeps names distinct and columns in place, the name now holds the new value, other columns are unchanged, and the row grows exactly when the name is new |
| Rows.ApplyConcat | api/src/main/java/org/openmrs/module/rwandareports/dataset/evaluator/HIVARTRegisterDataSetDefinitionEvaluator.java:243-490 | writing two runs of values is writing the first, then the second |
| Rows.ApplyLookup | api/src/main/java/org/openmrs/module/rwandareports/dataset/evaluator/HIVARTRegisterDataSetDefinitionEvaluator.java:243-490 | after a run of writes each column holds the last value written to its name, or its old value |
| Register.Prepare | api/src/main/java/org/openmrs/module/rwandareports/dataset/evaluator/HIVARTRegisterDataSetDefinitionEvaluator.java:224-233 | the drugs, the three observation lists and both change lists are cleansed against the start date, the stage and TB lists as well as CD4, and the change lists summarised; the result's observation lists hold only observations beyond the grace window |
| Register.NumberedDistinct | api/src/main/java/org/openmrs/module/rwandareports/dataset/evaluator/HIVARTRegisterDataSetDefinitionEvaluator.java:405 | two month (or observation month) columns with different numbers have different names, so no month column overwrites another |
| Register.StaticWrites | api/src/main/java/org/openmrs/module/rwandareports/dataset/evaluator/HIVARTRegisterDataSetDefinitionEvaluator.java:246-379 | the static columns of a sheet, in source order: header, identity columns, initial observations, both treatments, pregnancies and regimens |
| Register.MonthZeroWrites | api/src/main/java/org/openmrs/module/rwandareports/dataset/evaluator/HIVARTRegisterDataSetDefinitionEvaluator.java:381-398 | the Month 0 column written with the whole drug cell, then the writes of its split parts |
| Register.DrugMonthWrites | api/src/main/java/org/openmrs/module/rwandareports/dataset/evaluator/HIVARTRegisterDataSetDefinitionEvaluator.java:403-418 | one or two writes: the month column first, and a date column exactly when the drug cell is non-empty |
| Register.ReportAt | api/src/main/java/org/openmrs/module/rwandareports/dataset/evaluator/HIVARTRegisterDataSetDefinitionEvaluator.java:426-480 | what an observation month reports for one list: nothing once the list is used up, otherwise the latest observation of the window or an empty match; see ReportAtWindow |
| Register.ReportAtWindow | api/src/main/java/org/openmrs/module/rwandareports/dataset/evaluator/HIVARTRegisterDataSetDefinitionEvaluator.java:420-482 | with no start date nothing is reported; a reported observation is in the list and within (month - 3, month + 3] of the start; an empty match means no observation of the list is in that window |
| Register.ObsMonthWrites | api/src/main/java/org/openmrs/module/rwandareports/dataset/evaluator/HIVARTRegisterDataSetDefinitionEvaluator.java:420-482 | the CD4, CD4 date, stage and TB columns of an observation month, from the reports of the three lists |
| Register.BlockWrites | api/src/main/java/org/openmrs/module/rwandareports/dataset/evaluator/HIVARTRegisterDataSetDefinitionEvaluator.java:400-482 | one six-month block: five drug months, then the observation month |
| Register.SheetWrites | api/src/main/java/org/openmrs/module/rwandareports/dataset/evaluator/HIVARTRegisterDataSetDefinitionEvaluator.java:243-419 | one sheet: static columns, Month 0, then six blocks |
| Register.Continue | api/src/main/java/org/openmrs/module/rwandareports/dataset/evaluator/HIVARTRegisterDataSetDefinitionEvaluator.java:482-489 | the probe for another sheet: some observation list still holds observations beyond the last month + 3, or a drug is current at the next month |
| Register.RowWrites | api/src/main/java/org/openmrs/module/rwandareports/dataset/evaluator/HIVARTRegisterDataSetDefinitionEvaluator.java:243-490 | addPatientRow from one sheet on: that sheet, then the following sheets while Continue holds; its properties are stated by RowWritesObservationMonth, SheetCountEnds and EveryObservationConsumed |
| Register.ObservationMonthStep | api/src/main/java/org/openmrs/module/rwandareports/dataset/evaluator/HIVARTRegisterDataSetDefinitionEvaluator.java:420-444 | an exhausted list shows nothing and stays exhausted; otherwise the column shows the last match ("" when none) and removeAll leaves the list the next observation month expects |
| Register.MaxDistance | api/src/main/java/org/openmrs/module/rwandareports/dataset/evaluator/HIVARTRegisterDataSetDefinitionEvaluator.java:484-489 | no observation is further from the start than the maximum distance |
| Register.ContinueBelowBound | api/src/main/java/org/openmrs/module/rwandareports/dataset/evaluator/HIVARTRegisterDataSetDefinitionEvaluator.java:484-489 | another sheet only follows a sheet ending before a bound fixed by the observations and now, so the recursion ends |
| Register.SheetCount | api/src/main/java/org/openmrs/module/rwandareports/dataset/evaluator/HIVARTRegisterDataSetDefinitionEvaluator.java:484-489 | a row has at least one sheet |
| Register.SheetCountEnds | api/src/main/java/org/openmrs/module/rwandareports/dataset/evaluator/HIVARTRegisterDataSetDefinitionEvaluator.java:484-489 | after the last sheet the continuation probe is false |
| Register.BlocksWriteObservationMonth | api/src/main/java/org/openmrs/module/rwandareports/dataset/evaluator/HIVARTRegisterDataSetDefinitionEvaluator.java:400-482 | the first f blocks of a sheet contain the observation cells of each of months start + 6, ..., start + 6f |
| Register.SheetWritesObservationMonth | api/src/main/java/org/openmrs/module/rwandareports/dataset/evaluator/HIVARTRegisterDataSetDefinitionEvaluator.java:400-482 | a sheet contains the observation cells of each of its six observation months |
| Register.RowWritesObservationMonth | api/src/main/java/org/openmrs/module/rwandareports/dataset/evaluator/HIVARTRegisterDataSetDefinitionEvaluator.java:400-489 | the row contains the observation cells of month start + 6k for every k up to six times the number of sheets |
| Register.LastSheetDrains | api/src/main/java/org/openmrs/module/rwandareports/dataset/evaluator/HIVARTRegisterDataSetDefinitionEvaluator.java:482-489 | every observation in a cleansed list lies within 3 months after the last month of the row |
| Register.EveryObservationConsumed | api/src/main/java/org/openmrs/module/rwandareports/dataset/evaluator/HIVARTRegisterDataSetDefinitionEvaluator.java:400-489 | every cleansed CD4, stage or TB observation is consumed by the window of one observation month 6k, that month is on a sheet of the row, the row's write run contains that month's CD4, CD4 date, stage and TB cells, and the report written there is the latest observation of the window, not necessarily this one |
| Register.ShownIsLastOfWindow | api/src/main/java/org/openmrs/module/rwandareports/dataset/evaluator/HIVARTRegisterDataSetDefinitionEvaluator.java:426-437 | an observation month 6j only ever shows the last observation of its own window, and the shown observation's window is the j-th |
| Register.EarlierMatchNeverShown | api/src/main/java/org/openmrs/module/rwandareports/dataset/evaluator/HIVARTRegisterDataSetDefinitionEvaluator.java:426-437 | an observation that is in its window but not the window's last is never shown: no observation month reports it, because the loop keeps only the last match and removeAll drops the rest |
| Register.WindowMonthWithinSheets | api/src/main/java/org/openmrs/module/rwandareports/dataset/evaluator/HIVARTRegisterDataSetDefinitionEvaluator.java:400-421 | an observation month whose window reaches a covered distance is itself on a sheet |
| Register.LateObservationAddsSheet | api/src/main/java/org/openmrs/module/rwandareports/dataset/evaluator/HIVARTRegisterDataSetDefinitionEvaluator.java:484-489 | a CD4 observation more than 39 months out forces a second sheet |
| Register.NoAnchorOneSheet | api/src/main/java/org/openmrs/module/rwandareports/dataset/evaluator/HIVARTRegisterDataSetDefinitionEvaluator.java:484-489 | without a start date the row is exactly one sheet |
| Register.NothingLaterOneSheet | api/src/main/java/org/openmrs/module/rwandareports/dataset/evaluator/HIVARTRegisterDataSetDefinitionEvaluator.java:484-489 | with a start date, no cleansed CD4, stage or TB observations and no drug current at month 37, the row is exactly one sheet |
| Register.DrugMonthShows | api/src/main/java/org/openmrs/module/rwandareports/dataset/evaluator/HIVARTRegisterDataSetDefinitionEvaluator.java:400-418 | a month column shows the current drug names and its date column the month label, or "" and no date column when no drug is current |
| Register.MonthZeroShows | api/src/main/java/org/openmrs/module/rwandareports/dataset/evaluator/HIVARTRegisterDataSetDefinitionEvaluator.java:381-398 | Month 0 is written twice; the second write replaces the whole cell with the drug names, and the date column shows the month label |
| Register.IdentityWrites | api/src/main/java/org/openmrs/module/rwandareports/dataset/evaluator/HIVARTRegisterDataSetDefinitionEvaluator.java:273-292 | one cell per identity column |
| Register.PregnancyWrites | api/src/main/java/org/openmrs/module/rwandareports/dataset/evaluator/HIVARTRegisterDataSetDefinitionEvaluator.java:349-361 | exactly four pregnancy cells |
| Register.Table | api/src/main/java/org/openmrs/module/rwandareports/dataset/evaluator/HIVARTRegisterDataSetDefinitionEvaluator.java:182-241 | one result row per input row |
| Register.PatientRow | api/src/main/java/org/openmrs/module/rwandareports/dataset/evaluator/HIVARTRegisterDataSetDefinitionEvaluator.java:224-237 | the row of one patient; its columns have distinct names |
| Register.PatientRowHoldsLastWrites | api/src/main/java/org/openmrs/module/rwandareports/dataset/evaluator/HIVARTRegisterDataSetDefinitionEvaluator.java:224-237 | each column of the patient's row holds the value last written under its name by some sheet, and a name no sheet writes is not a column |
| Register.TableRows | api/src/main/java/org/openmrs/module/rwandareports/dataset/evaluator/HIVARTRegisterDataSetDefinitionEvaluator.java:200-237 | the i-th result row is the pivot of the i-th input row, numbered i + 1 |
| Builder.LatestInWindow | api/src/main/java/org/openmrs/module/rwandareports/dataset/evaluator/HIVARTRegisterDataSetDefinitionEvaluator.java:420-444 | one observation month on a consumed list: returns the report of that month and the list left for the next month, never longer |
| Builder.MoreSheets | api/src/main/java/org/openmrs/module/rwandareports/dataset/evaluator/HIVARTRegisterDataSetDefinitionEvaluator.java:482-489 | the probe is true exactly when a list is non-empty or a drug is current at the next month |
| Builder.PatientRowBuilder.AddColumnValue | api/src/main/java/org/openmrs/module/rwandareports/dataset/evaluator/HIVARTRegisterDataSetDefinitionEvaluator.java:291 | the row becomes the put of the cell into the old row, and the write is logged |
| Builder.PatientRowBuilder.AddHeader | api/src/main/java/org/openmrs/module/rwandareports/dataset/evaluator/HIVARTRegisterDataSetDefinitionEvaluator.java:246-269 | writes the No, debut date and starting regimen cells of the sheet |
| Builder.PatientRowBuilder.AddIdentity | api/src/main/java/org/openmrs/module/rwandareports/dataset/evaluator/HIVARTRegisterDataSetDefinitionEvaluator.java:273-292 | writes the identity columns, lists and drug orders rendered as text |
| Builder.PatientRowBuilder.AddInitialObservations | api/src/main/java/org/openmrs/module/rwandareports/dataset/evaluator/HIVARTRegisterDataSetDefinitionEvaluator.java:294-328 | writes weight and date, stage without "WHO STAGE", and the initial CD4 count and percent with their dates |
| Builder.PatientRowBuilder.AddTreatment | api/src/main/java/org/openmrs/module/rwandareports/dataset/evaluator/HIVARTRegisterDataSetDefinitionEvaluator.java:330-347 | writes the start and end columns of a treatment from the last order's effective start and stop dates |
| Builder.PatientRowBuilder.AddPregnancies | api/src/main/java/org/openmrs/module/rwandareports/dataset/evaluator/HIVARTRegisterDataSetDefinitionEvaluator.java:349-361 | writes the four pregnancy columns |
| Builder.PatientRowBuilder.AddRegimens | api/src/main/java/org/openmrs/module/rwandareports/dataset/evaluator/HIVARTRegisterDataSetDefinitionEvaluator.java:363-379 | writes the initial regimen and both change summaries |
| Builder.PatientRowBuilder.AddStaticColumns | api/src/main/java/org/openmrs/module/rwandareports/dataset/evaluator/HIVARTRegisterDataSetDefinitionEvaluator.java:246-379 | writes all static columns of a sheet in source order |
| Builder.PatientRowBuilder.AddDrugCell | api/src/main/java/org/openmrs/module/rwandareports/dataset/evaluator/HIVARTRegisterDataSetDefinitionEvaluator.java:403-418 | writes the first part of the split drug cell and, when there is one, the second under the date column |
| Builder.PatientRowBuilder.AddMonthZero | api/src/main/java/org/openmrs/module/rwandareports/dataset/evaluator/HIVARTRegisterDataSetDefinitionEvaluator.java:381-398 | writes the whole drug cell, then its split parts |
| Builder.PatientRowBuilder.AddObservationMonth | api/src/main/java/org/openmrs/module/rwandareports/dataset/evaluator/HIVARTRegisterDataSetDefinitionEvaluator.java:420-482 | writes the CD4, CD4 date, stage and TB cells of the month and consumes each list's window |
| Builder.PatientRowBuilder.AddBlock | api/src/main/java/org/openmrs/module/rwandareports/dataset/evaluator/HIVARTRegisterDataSetDefinitionEvaluator.java:400-482 | writes five drug months and one observation month, leaving the lists consumed six months further |
| Builder.PatientRowBuilder.AddSheet | api/src/main/java/org/openmrs/module/rwandareports/dataset/evaluator/HIVARTRegisterDataSetDefinitionEvaluator.java:243-486 | writes one whole sheet, ends 36 months later, and reports whether another sheet follows |
| Builder.PatientRowBuilder.AddPatientRow | api/src/main/java/org/openmrs/module/rwandareports/dataset/evaluator/HIVARTRegisterDataSetDefinitionEvaluator.java:243-490 | writes every sheet of the row and ends with all three observation lists used up |
| Builder.BuildPatientRow | api/src/main/java/org/openmrs/module/rwandareports/dataset/evaluator/HIVARTRegisterDataSetDefinitionEvaluator.java:200-237 | cleanses, summarises and fills a fresh row, giving exactly the specified patient row |
| Builder.TransformRows | api/src/main/java/org/openmrs/module/rwandareports/dataset/evaluator/HIVARTRegisterDataSetDefinitionEvaluator.java:182-241 | gives exactly one specified row per input row, numbered from 1 in input order |

## Left out

- `evaluate` and the sort of the rows by the comparator before pivoting are not modelled. The rows arrive in the order they are given.
- Time zones, daylight saving, the Julian/Gregorian cutover, years before 1 and locale-dependent formatting are not modelled. Dates are proleptic Gregorian calendar fields. The month labels are English.
- `OrderEntryUtil.isCurrent` is a parameter of the model (`Env`).
- The current time: `retrieveCorrectMonthsOb` reads `Calendar.getInstance()` afresh on every probe, so a clock that moves while the table is built can change later probes. The model takes one fixed `env.now` for the whole table and does not model a moving clock.
- `isDiscontinued`, `getDiscontinueReason`, the drug name and `Obs.getValueAsString` are field values of the order or observation, fetched once.
- `DataSetColumn` labels and types are not modelled. A column is identified by its name, as the row's map identifies it.
- Null lists and null cell values from the evaluated row are modelled only where the source tests for them (start date, CD4 results, pregnancy list). `retrieveCorrectMonthsOb` never returns null, so the `null` branches of the drug-cell code are unreachable and not modelled.
- Exceptions caught and printed in the identity loop become the "Drug Missing" value that the source's fallback produces.
- `MetadataLookup`, the consultation-sheet setup and the appointment-list setup are not part of this model.
- Builder.PatientRowBuilder.AddInitialObservations: the stage column applies `replaceFirst("WHO STAGE", "")` to the value as text. The pattern has no regular-expression metacharacters, so it is modelled as a literal replacement.
- Builder.LatestInWindow: the report of an observation month is computed before its cells are written. The order of the writes is the same as in the source.
- Buckets.GetDiscontinuedReasons: as the code is written, a discontinued order with neither a reason nor a stop date, coming after a non-empty summary, leaves a trailing " , ". The model follows the code, not a description of the summary that promises only separators between entries (`DiscontinuedReasonsDanglingSeparator`).
