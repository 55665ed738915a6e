/** The closed registry of the Explorer: datasets, measures, sub-populations, and their bounds. */
module ExplorerRegistry {
  import opened Basics

  const MAX_GROUP_BY := 2
  const MAX_GROUPS := 50
  const MAX_ROWS := 200
  const DEFAULT_ROWS := 50
  const MAX_POINTS := 300

  const AGGREGATIONS: seq<string> := ["count", "sum", "avg", "p75", "p95", "distinct"]
  const VISUALIZATIONS: seq<string> := ["value", "toplist", "timeseries", "table"]

  datatype Kind = Rows | Column | JsonProperty | Identity

  datatype Field = Field(kind: Kind, aggregations: seq<string>, variant: Option<string>, overlap: bool, bucketable: bool)

  datatype Axis = Axis(values: seq<string>, required: bool)

  datatype Dataset = Dataset(axis: Option<Axis>, fields: map<string, Field>)

  type Registry = map<string, Dataset>

  const COUNT: seq<string> := ["count"]
  const DUREE: seq<string> := ["avg", "p75", "p95"]
  const SUM_DUREE: seq<string> := ["sum"] + DUREE

  const COUNTED := Field(Rows, COUNT, None, false, true)
  const DISTINCT := Field(Identity, ["distinct"], None, false, true)

  function Numeric(aggregations: seq<string>): Field {
    Field(Column, aggregations, None, false, true)
  }

  const CUSTOM_EVENTS := Dataset(Some(Axis(["custom", "timing"], false)), map[
    "rows" := COUNTED, "sessions" := DISTINCT, "identified_users" := DISTINCT,
    "timing_ms" := Field(Column, SUM_DUREE, Some("timing"), false, true),
    "prop" := Field(JsonProperty, SUM_DUREE, None, false, true)])

  const ERRORS := Dataset(None, map[
    "occurrences" := Numeric(["sum"]), "sessions" := DISTINCT, "visitors" := DISTINCT, "identified_users" := DISTINCT])

  const VIEWS := Dataset(None, map["rows" := COUNTED, "sessions" := DISTINCT])

  const SESSIONS := Dataset(None, map[
    "started" := COUNTED, "active" := Field(Rows, COUNT, None, true, false), "visitors" := DISTINCT])

  const VITALS := Dataset(Some(Axis(["LCP", "INP", "CLS", "FCP", "TTFB"], true)), map[
    "rows" := COUNTED, "value" := Numeric(DUREE), "sessions" := DISTINCT])

  const RESOURCES := Dataset(None, map[
    "rows" := COUNTED, "duration_ms" := Numeric(DUREE), "transfer_size" := Numeric(SUM_DUREE), "sessions" := DISTINCT])

  const LONGTASKS := Dataset(Some(Axis(["longtask", "loaf"], false)), map[
    "rows" := COUNTED, "duration_ms" := Numeric(SUM_DUREE), "blocking_ms" := Numeric(SUM_DUREE), "sessions" := DISTINCT])

  const ACTIONS := Dataset(Some(Axis(["click", "manual"], false)), map["rows" := COUNTED, "sessions" := DISTINCT])

  const SPANS := Dataset(Some(Axis(["front", "back", "detail"], false)), map[
    "rows" := COUNTED, "duration_ms" := Numeric(DUREE), "sessions" := DISTINCT])

  const EXPLORER_DATASETS: Registry := map[
    "custom_events" := CUSTOM_EVENTS, "errors" := ERRORS, "views" := VIEWS, "sessions" := SESSIONS, "vitals" := VITALS,
    "resources" := RESOURCES, "longtasks" := LONGTASKS, "actions" := ACTIONS, "spans" := SPANS]

  /** A measure tied to a sub-population belongs to a dataset that has it. */
  ghost predicate DatasetWellFormed(d: Dataset) {
    forall f :: f in d.fields && d.fields[f].variant.Some? ==>
      d.axis.Some? && d.fields[f].variant.value in d.axis.value.values
  }

  ghost predicate WellFormed(reg: Registry) {
    forall d :: d in reg ==> DatasetWellFormed(reg[d])
  }

  lemma CustomEventsWellFormed()
    ensures DatasetWellFormed(CUSTOM_EVENTS)
  {
    assert "timing" in ["custom", "timing"];
  }

  lemma UntiedWellFormed()
    ensures DatasetWellFormed(ERRORS) && DatasetWellFormed(VIEWS) && DatasetWellFormed(SESSIONS) && DatasetWellFormed(VITALS)
  {
  }

  lemma UntiedDurationsWellFormed()
    ensures DatasetWellFormed(RESOURCES) && DatasetWellFormed(LONGTASKS) && DatasetWellFormed(ACTIONS) && DatasetWellFormed(SPANS)
  {
  }

  lemma RegistryWellFormed()
    ensures WellFormed(EXPLORER_DATASETS)
  {
    CustomEventsWellFormed();
    UntiedWellFormed();
    UntiedDurationsWellFormed();
  }
}
