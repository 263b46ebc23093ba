/** The per-patient facts the register pivots: drug orders, observations,
    the evaluated columns of one patient, and the collaborators the pivot
    consults but does not implement. */
module Facts {
  import opened Optional
  import opened Calendar

  /** A drug order as fetched. `drug` is the name of the order's drug, absent
      when the order has no drug; `discontinued` and `discontinueReason` are
      what isDiscontinued(null) and OrderEntryUtil.getDiscontinueReason
      report for it. */
  datatype DrugOrder = DrugOrder(
    drug: Option<string>,
    effectiveStart: Date,
    effectiveStop: Option<Date>,
    dateStopped: Option<Date>,
    discontinued: bool,
    discontinueReason: Option<string>)

  /** An observation: its identity (the uuid Obs.equals compares), its date
      and its value as getValueAsString renders it in the context locale.
      Equality of these values compares all three fields, which agrees with
      Obs.equals because an observation's uuid determines its date and
      value. */
  datatype Obs = Obs(uuid: string, obsDatetime: Date, valueText: string)

  /** What the pivot asks of its surroundings: the clock ("now") and the
      order-status predicate OrderEntryUtil.isCurrent(order, date). */
  datatype Env = Env(now: Date, isCurrent: (DrugOrder, Date) -> bool)

  /** The placeholder shown for an order whose drug cannot be read. */
  const DrugMissing: string := "Drug Missing"

  /** order.getDrug().getName(), with the placeholder when there is no drug. */
  function DrugName(o: DrugOrder): string {
    match o.drug
    case Some(name) => name
    case None => DrugMissing
  }

  /** A cell value: one kind per run-time class the evaluated data can hold.
      `Listing` is an ArrayList, carrying what its toString prints. */
  datatype Value =
    | Null
    | Text(text: string)
    | Number(number: int)
    | Day(date: Date)
    | Order(order: DrugOrder)
    | Listing(rendered: string)

  /** One named cell of a register row. */
  datatype Cell = Cell(name: string, value: Value)

  /** An evaluated column: its label (heading) and its value. */
  datatype Labelled<T> = Labelled(heading: string, value: T)

  /** An ObservationResult: the value as text and the observation date. */
  datatype ObsResult = ObsResult(value: Option<string>, date: Option<Date>)

  /** The evaluated data set row of one patient, column by column
      (START_DATE_WORKFLOW_ART = 0 ... TB_OBS = 22). `identity` holds the
      columns 2 to 8 (ids, names, gender, birthdate, age at start). A
      CD4 column that failed to evaluate is absent. */
  datatype PatientFacts = PatientFacts(
    anchor: Option<Date>,
    startingRegimen: Option<DrugOrder>,
    identity: seq<Labelled<Value>>,
    weightAtStart: Labelled<ObsResult>,
    initialStage: Labelled<Option<string>>,
    initialCd4Count: Labelled<Option<ObsResult>>,
    initialCd4Percent: Labelled<Option<ObsResult>>,
    ctxTreatment: Labelled<seq<DrugOrder>>,
    tbTreatment: Labelled<seq<DrugOrder>>,
    pregnancyDeliveryDates: Option<seq<Obs>>,
    initialRegimen: Option<DrugOrder>,
    firstLineChanges: seq<DrugOrder>,
    secondLineChanges: seq<DrugOrder>,
    artDrugs: seq<DrugOrder>,
    cd4Obs: seq<Obs>,
    stageObs: seq<Obs>,
    tbObs: seq<Obs>)
}
