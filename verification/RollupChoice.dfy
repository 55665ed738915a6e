/**
 Which pre-computed aggregate may answer a plan. The declarative check is compared with what the
 compiler of the hybrid read assumes, and with what the read needs to be exact.
 */
module RollupChoice {
  import opened Basics
  import opened QueryContract
  import opened Conditions
  import opened ExplorerRegistry
  import opened ExplorerAst
  import HybridRead

  type Seconds = n: int | 0 < n witness 1

  datatype Answer = Answer(
    dataset: string, field: string, aggregations: seq<string>, visualizations: seq<string>,
    requiresVariant: bool, variants: Option<seq<string>>)

  /** `watermarked`: the source keeps the instant and the identifier of its last refresh. */
  datatype Source = Source(
    id: string, dimensions: seq<string>, columns: map<string, string>, includesBots: bool,
    watermarked: bool, grainSeconds: Seconds, answers: seq<Answer>)

  const VITALS_HISTOGRAM := Source(
    "vitals_histogram", ["device"], map["device" := "device_type"], false, true, 3600,
    [Answer("vitals", "value", ["p75", "p95"], ["value", "toplist"], true, Some(["LCP", "INP", "CLS", "FCP", "TTFB"]))])

  const TRAFFIC_HOURLY := Source(
    "traffic_hourly", ["device"], map["device" := "device_type"], false, false, 3600,
    [Answer("views", "rows", ["count"], ["value", "toplist", "timeseries"], false, None),
     Answer("errors", "occurrences", ["sum"], ["value", "toplist", "timeseries"], false, None)])

  const ROLLUP_SOURCES: seq<Source> := [VITALS_HISTOGRAM, TRAFFIC_HOURLY]

  datatype Reason =
    | NoSource | NoMeasure | NoAggregation | NotAdditive | OtherPopulation | NoWatermark
    | VariantMissing | VariantNotCovered | GroupNotCarried | FilterNotCarried | NoRepresentation | FinerThanGrain

  datatype Decision = Usable(source: Source, answer: Answer) | Refused(reason: Reason)

  function FindAnswer(answers: seq<Answer>, plan: Plan): Option<Answer> {
    if answers == [] then None
    else if answers[0].dataset == plan.dataset && answers[0].field == plan.field then Some(answers[0])
    else FindAnswer(answers[1..], plan)
  }

  function RollupAnswers(source: Source, plan: Plan, filters: Filters, bucketSeconds: int): Decision {
    var found := FindAnswer(source.answers, plan);
    if found.None? then Refused(NoMeasure)
    else
      var answer := found.value;
      if plan.aggregation !in answer.aggregations then Refused(NoAggregation)
      else if plan.aggregation == "distinct" then Refused(NotAdditive)
      else if filters.includeBots != source.includesBots then Refused(OtherPopulation)
      else if !source.watermarked then Refused(NoWatermark)
      else if answer.requiresVariant && plan.variant.None? then Refused(VariantMissing)
      else if plan.variant.Some? && answer.variants.Some? && plan.variant.value !in answer.variants.value then
        Refused(VariantNotCovered)
      else if exists d :: d in plan.groupBy && d !in source.dimensions then Refused(GroupNotCarried)
      else if exists c :: c in filters.segments && c.dimension !in source.dimensions then Refused(FilterNotCarried)
      else if plan.visualization !in answer.visualizations then Refused(NoRepresentation)
      else if plan.visualization == "timeseries" && bucketSeconds % source.grainSeconds != 0 then Refused(FinerThanGrain)
      else Usable(source, answer)
  }

  /** The first usable source, or the last refusal of a source that did carry the measure. */
  function Choose(sources: seq<Source>, last: Decision, plan: Plan, filters: Filters, bucketSeconds: int): Decision {
    if sources == [] then last
    else
      var decision := RollupAnswers(sources[0], plan, filters, bucketSeconds);
      if decision.Usable? then decision
      else Choose(sources[1..], if FindAnswer(sources[0].answers, plan).Some? then decision else last, plan, filters, bucketSeconds)
  }

  method ChooseRollup(plan: Plan, filters: Filters, bucketSeconds: int) returns (decision: Decision)
    ensures decision == Choose(ROLLUP_SOURCES, Refused(NoSource), plan, filters, bucketSeconds)
    ensures decision.Usable? <==> Served(plan, filters)
    ensures decision.Usable? ==> decision.source == VITALS_HISTOGRAM
  {
    ServedExactly(plan, filters, bucketSeconds);
    var dernier := Refused(NoSource);
    for n := 0 to |ROLLUP_SOURCES|
      invariant Choose(ROLLUP_SOURCES, Refused(NoSource), plan, filters, bucketSeconds)
                == Choose(ROLLUP_SOURCES[n..], dernier, plan, filters, bucketSeconds)
    {
      var source := ROLLUP_SOURCES[n];
      assert ROLLUP_SOURCES[n..][0] == source && ROLLUP_SOURCES[n..][1..] == ROLLUP_SOURCES[n + 1..];
      var d := RollupAnswers(source, plan, filters, bucketSeconds);
      if d.Usable? { return d; }
      if FindAnswer(source.answers, plan).Some? { dernier := d; }
    }
    return dernier;
  }

  /** What the registry of aggregates really serves: percentiles of a Web Vital, by device at most. */
  predicate Served(plan: Plan, filters: Filters) {
    && plan.dataset == "vitals" && plan.field == "value" && plan.aggregation in ["p75", "p95"]
    && plan.variant.Some? && plan.variant.value in ["LCP", "INP", "CLS", "FCP", "TTFB"]
    && plan.visualization in ["value", "toplist"]
    && (forall d :: d in plan.groupBy ==> d == "device")
    && !filters.includeBots && (forall c :: c in filters.segments ==> c.dimension == "device")
  }

  lemma VitalsAnswer(plan: Plan, filters: Filters, bucketSeconds: int)
    ensures RollupAnswers(VITALS_HISTOGRAM, plan, filters, bucketSeconds).Usable? <==> Served(plan, filters)
    ensures RollupAnswers(VITALS_HISTOGRAM, plan, filters, bucketSeconds).Usable? ==>
              RollupAnswers(VITALS_HISTOGRAM, plan, filters, bucketSeconds).source == VITALS_HISTOGRAM
  {
    var answers := VITALS_HISTOGRAM.answers;
    assert answers[1..] == [];
    assert FindAnswer(answers, plan) == if plan.dataset == "vitals" && plan.field == "value" then Some(answers[0]) else None;
    assert forall d :: d in VITALS_HISTOGRAM.dimensions <==> d == "device";
  }

  lemma TrafficNeverAnswers(plan: Plan, filters: Filters, bucketSeconds: int)
    ensures RollupAnswers(TRAFFIC_HOURLY, plan, filters, bucketSeconds).Refused?
  {
  }

  /** A plan is served by an aggregate if and only if it is one of those. */
  lemma ServedExactly(plan: Plan, filters: Filters, bucketSeconds: int)
    ensures var decision := Choose(ROLLUP_SOURCES, Refused(NoSource), plan, filters, bucketSeconds);
            && (decision.Usable? <==> Served(plan, filters))
            && (decision.Usable? ==> decision.source == VITALS_HISTOGRAM)
  {
    VitalsAnswer(plan, filters, bucketSeconds);
    TrafficNeverAnswers(plan, filters, bucketSeconds);
    var first := RollupAnswers(VITALS_HISTOGRAM, plan, filters, bucketSeconds);
    var last := if FindAnswer(VITALS_HISTOGRAM.answers, plan).Some? then first else Refused(NoSource);
    assert ROLLUP_SOURCES[0] == VITALS_HISTOGRAM && ROLLUP_SOURCES[1..] == [TRAFFIC_HOURLY];
    if first.Refused? {
      assert [TRAFFIC_HOURLY][1..] == [];
      assert Choose([TRAFFIC_HOURLY], last, plan, filters, bucketSeconds).Refused?;
    }
  }

  /** An aggregate keeps the measure of the plan, whatever else it asks. */
  predicate Kept(plan: Plan) {
    || (plan.dataset == "vitals" && plan.field == "value")
    || (plan.dataset == "views" && plan.field == "rows")
    || (plan.dataset == "errors" && plan.field == "occurrences")
  }

  /** The reason is true of the plan and of its filters. */
  predicate True(reason: Reason, plan: Plan, filters: Filters) {
    match reason
    case NoSource => !Kept(plan)
    case NoAggregation =>
      if plan.dataset == "vitals" then plan.aggregation != "p75" && plan.aggregation != "p95"
      else if plan.dataset == "views" then plan.aggregation != "count" else plan.aggregation != "sum"
    case OtherPopulation => filters.includeBots
    case NoWatermark => plan.dataset == "views" || plan.dataset == "errors"
    case VariantMissing => plan.dataset == "vitals" && plan.variant == None
    case VariantNotCovered => plan.variant.Some? && plan.variant.value !in ["LCP", "INP", "CLS", "FCP", "TTFB"]
    case GroupNotCarried => exists d :: d in plan.groupBy && d != "device"
    case FilterNotCarried => exists c :: c in filters.segments && c.dimension != "device"
    case NoRepresentation => plan.visualization != "value" && plan.visualization != "toplist"
    case _ => false
  }

  /** A refusal never misleads: the reason it gives holds, and no plan is refused for a measure or a grain that an aggregate does keep. */
  lemma RefusalIsTrue(plan: Plan, filters: Filters, bucketSeconds: int)
    ensures var decision := Choose(ROLLUP_SOURCES, Refused(NoSource), plan, filters, bucketSeconds);
            decision.Refused? ==> True(decision.reason, plan, filters)
  {
    VitalsRefusal(plan, filters, bucketSeconds);
    TrafficRefusal(plan, filters, bucketSeconds);
    var first, second := RollupAnswers(VITALS_HISTOGRAM, plan, filters, bucketSeconds), RollupAnswers(TRAFFIC_HOURLY, plan, filters, bucketSeconds);
    var last := if FindAnswer(VITALS_HISTOGRAM.answers, plan).Some? then first else Refused(NoSource);
    assert ROLLUP_SOURCES[0] == VITALS_HISTOGRAM && ROLLUP_SOURCES[1..] == [TRAFFIC_HOURLY] && [TRAFFIC_HOURLY][1..] == [];
    assert first.Refused? ==>
        Choose(ROLLUP_SOURCES, Refused(NoSource), plan, filters, bucketSeconds) == Choose([TRAFFIC_HOURLY], last, plan, filters, bucketSeconds);
    assert Choose([TRAFFIC_HOURLY], last, plan, filters, bucketSeconds)
        == if FindAnswer(TRAFFIC_HOURLY.answers, plan).Some? then second else last;
  }

  lemma VitalsRefusal(plan: Plan, filters: Filters, bucketSeconds: int)
    ensures var decision, found := RollupAnswers(VITALS_HISTOGRAM, plan, filters, bucketSeconds), FindAnswer(VITALS_HISTOGRAM.answers, plan);
            && (found.Some? <==> plan.dataset == "vitals" && plan.field == "value")
            && (found.Some? && decision.Refused? ==> True(decision.reason, plan, filters))
  {
    var answers := VITALS_HISTOGRAM.answers;
    assert answers[1..] == [];
    assert FindAnswer(answers, plan) == if plan.dataset == "vitals" && plan.field == "value" then Some(answers[0]) else None;
    assert forall d :: d in VITALS_HISTOGRAM.dimensions <==> d == "device";
  }

  lemma TrafficRefusal(plan: Plan, filters: Filters, bucketSeconds: int)
    ensures var decision, found := RollupAnswers(TRAFFIC_HOURLY, plan, filters, bucketSeconds), FindAnswer(TRAFFIC_HOURLY.answers, plan);
            && (found.Some? <==> (plan.dataset == "views" && plan.field == "rows") || (plan.dataset == "errors" && plan.field == "occurrences"))
            && decision.Refused? && (found.Some? ==> True(decision.reason, plan, filters))
  {
    var answers := TRAFFIC_HOURLY.answers;
    var second := answers[1..];
    assert second[0] == answers[1] && second[1..] == [] && FindAnswer(second[1..], plan) == None;
    assert FindAnswer(second, plan) == if plan.dataset == "errors" && plan.field == "occurrences" then Some(answers[1]) else None;
    assert FindAnswer(answers, plan) ==
        if plan.dataset == "views" && plan.field == "rows" then Some(answers[0])
        else if plan.dataset == "errors" && plan.field == "occurrences" then Some(answers[1]) else None;
  }

  // ------------------------------------------------------------------ what the compiler assumes

  datatype Fault = PopulationMismatch | WatermarkMissing | AxisMissing | ColumnMissing

  /** `predicatsDimension`: a condition on a dimension without a column is a fault, never ignored. */
  predicate PredicatesCompile(source: Source, segments: seq<Condition>) {
    forall c :: c in segments ==> c.dimension in source.dimensions && c.dimension in source.columns
  }

  /** The faults `compileRollupHistogram` raises; on success, whether it groups by its first dimension. */
  function CompileRollupHistogram(reg: Registry, plan: Plan, filters: Filters, source: Source): Result<bool, Fault> {
    if source.includesBots || filters.includeBots then Err(PopulationMismatch)
    else if !source.watermarked then Err(WatermarkMissing)
    else if plan.dataset !in reg || reg[plan.dataset].axis.None? then Err(AxisMissing)
    else if plan.groupBy != [] && plan.groupBy[0] !in source.columns then Err(ColumnMissing)
    else if !PredicatesCompile(source, filters.segments) then Err(ColumnMissing)
    else Ok(plan.groupBy != [])
  }

  lemma VitalsHasAxis()
    ensures "vitals" in EXPLORER_DATASETS && EXPLORER_DATASETS["vitals"].axis.Some?
  {
  }

  /** The query of the hybrid read that a usable plan compiles to. */
  function QuestionOf(plan: Plan, filters: Filters, scope: Scope, from: int, to: int): HybridRead.Question
    requires plan.variant.Some?
  {
    HybridRead.Question(scope, from, to, plan.variant.value, plan.groupBy != [], filters)
  }

  lemma NamesDiffer(names: seq<string>, i: nat, j: nat)
    requires DistinctNames(names) && i < j < |names|
    ensures names[i] != names[j]
  {
  }

  lemma AtMostOne(groupBy: seq<string>)
    requires DistinctNames(groupBy) && forall i :: 0 <= i < |groupBy| ==> groupBy[i] == "device"
    ensures |groupBy| <= 1
  {
    if |groupBy| > 1 {
      NamesDiffer(groupBy, 0, 1);
      assert false;
    }
  }

  /** A served plan without a repeated dimension compiles without a fault, and its first dimension is its only one. */
  lemma ServedCompiles(plan: Plan, filters: Filters)
    requires Served(plan, filters) && ValidGroupBy(plan.groupBy)
    ensures CompileRollupHistogram(EXPLORER_DATASETS, plan, filters, VITALS_HISTOGRAM) == Ok(plan.groupBy != [])
    ensures plan.groupBy == [] || plan.groupBy == ["device"]
  {
    VitalsHasAxis();
    forall i | 0 <= i < |plan.groupBy| ensures plan.groupBy[i] == "device" { assert plan.groupBy[i] in plan.groupBy; }
    AtMostOne(plan.groupBy);
  }

  lemma PlanGroupByValid(reg: Registry, source: PlanSource, cursor: CursorInput, query: Option<Query>)
    requires ParseExplorerPlan(reg, source, cursor, query).Ok?
    ensures ValidGroupBy(ParseExplorerPlan(reg, source, cursor, query).value.groupBy)
  {
    GroupByRoundTrip(source.groupBy);
  }

  lemma UsableIsServed(source: PlanSource, cursor: CursorInput, query: Option<Query>, filters: Filters, bucketSeconds: int,
                       plan: Plan)
    requires ParseExplorerPlan(EXPLORER_DATASETS, source, cursor, query) == Ok(plan)
    requires Choose(ROLLUP_SOURCES, Refused(NoSource), plan, filters, bucketSeconds).Usable?
    ensures CompileRollupHistogram(EXPLORER_DATASETS, plan, filters, VITALS_HISTOGRAM) == Ok(plan.groupBy == ["device"])
    ensures plan.groupBy == [] || plan.groupBy == ["device"]
    ensures plan.variant.Some? && Served(plan, filters)
  {
    ServedExactly(plan, filters, bucketSeconds);
    PlanGroupByValid(EXPLORER_DATASETS, source, cursor, query);
    ServedCompiles(plan, filters);
  }

  lemma ServedFilters(plan: Plan, filters: Filters)
    requires Served(plan, filters)
    ensures HybridRead.ExactUnder(filters) <==>
              || Contradictory(filters.segments)
              || ((forall d :: d in PARAM_DIMENSIONS ==> d !in filters.params)
                  && (filters.device.Some? ==> Eq("device", filters.device.value) in filters.segments))
  {
    assert HybridRead.Answerable(HybridRead.OneMeasureQuestion(filters));
    HybridRead.ExactOnDevice(filters);
  }

  /**
   A plan accepted by the parser and judged usable compiles without a fault, loses no dimension by
   reading only the first one, and is a query the hybrid read can answer: as the raw read does, exactly
   when no dedicated parameter is given and no device but one of the segment (or nothing can pass).
   */
  lemma UsableCompiles(source: PlanSource, cursor: CursorInput, query: Option<Query>, filters: Filters, bucketSeconds: int,
                       plan: Plan)
    requires ParseExplorerPlan(EXPLORER_DATASETS, source, cursor, query) == Ok(plan)
    requires Choose(ROLLUP_SOURCES, Refused(NoSource), plan, filters, bucketSeconds).Usable?
    ensures CompileRollupHistogram(EXPLORER_DATASETS, plan, filters, VITALS_HISTOGRAM) == Ok(plan.groupBy == ["device"])
    ensures plan.groupBy == [] || plan.groupBy == ["device"]
    ensures plan.variant.Some?
    ensures forall scope, from, to :: HybridRead.Answerable(QuestionOf(plan, filters, scope, from, to))
    ensures HybridRead.ExactUnder(filters) <==>
              || Contradictory(filters.segments)
              || ((forall d :: d in PARAM_DIMENSIONS ==> d !in filters.params)
                  && (filters.device.Some? ==> Eq("device", filters.device.value) in filters.segments))
  {
    UsableIsServed(source, cursor, query, filters, bucketSeconds, plan);
    ServedFilters(plan, filters);
  }

  /**
   The rule that an aggregate without a browser never answers `browser = Firefox` holds for the segment
   only: given as a URL parameter, the condition is neither refused nor applied.
   */
  lemma BrowserParameterIsIgnored(plan: Plan, value: string, bucketSeconds: int)
    requires Served(plan, Filters(None, map["browser" := value], false, false, []))
    ensures var f := Filters(None, map["browser" := value], false, false, []);
            && Choose(ROLLUP_SOURCES, Refused(NoSource), plan, f, bucketSeconds).Usable?
            && Eq("browser", value) in ConditionsOf(f)
            && !HybridRead.ExactUnder(f)
  {
    var f := Filters(None, map["browser" := value], false, false, []);
    ServedExactly(plan, f, bucketSeconds);
    ParamConditionPresent(f.params, PARAM_DIMENSIONS, "browser");
    HybridRead.ExactOnDevice(f);
    assert "browser" in PARAM_DIMENSIONS && "browser" in f.params;
  }

  /** The plan an Explorer page opens for the 75th percentile of a Web Vital is served. */
  lemma PercentilePageIsServed(f: Filters)
    requires !f.includeBots && f.segments == []
    ensures Served(Plan("vitals", "p75", "value", None, Some("LCP"), [], "value", 10, None), f)
  {
  }
}
