/**
 The analytic query as a client writes it, as the console validates it, and as it prints it back:
 the canonical AST that a dashboard stores and replays.
 */
module ExplorerAst {
  import opened Basics
  import opened QueryContract
  import opened ExplorerRegistry

  /** A JSON value; `undefined` is the absence of a key. */
  datatype Json = Null | Bool(b: bool) | Num(n: real) | Str(s: string) | Arr(items: seq<Json>) | Obj(fields: map<string, Json>)

  datatype Code =
    | InvalidQuery | UnsupportedDataset | UnsupportedMeasure | UnsupportedVisualization
    | TooManyConditions | UnsupportedDimension | InvalidFilter | InvalidCursor | StaleCursor

  datatype Refus = Refus(code: Code, parameter: string)

  function Get(o: map<string, Json>, key: string): Option<Json> {
    if key in o then Some(o[key]) else None
  }

  /** `undefined` or `null`. */
  predicate Nullish(v: Option<Json>) {
    v == None || v == Some(Null)
  }

  // ------------------------------------------------------------------ filters

  /** Bounded text without control characters. */
  predicate IsSafeText(s: string, max: nat) {
    0 < |s| <= max && forall i :: 0 <= i < |s| ==> s[i] >= ' ' && s[i] != '\U{7F}'
  }

  const FILTER_KEYS: set<string> := {"field", "operator", "type", "value"}

  function ParseCondition(entry: Json): Result<Condition, Refus> {
    if !entry.Obj? || !(entry.fields.Keys <= FILTER_KEYS) then Err(Refus(InvalidQuery, "filters"))
    else
      var field, operator, value := Get(entry.fields, "field"), Get(entry.fields, "operator"), Get(entry.fields, "value");
      if !(field.Some? && field.value.Str? && |field.value.s| <= DIMENSION_NAME_MAX) then Err(Refus(InvalidQuery, "filters"))
      else if field.value.s !in DIMENSIONS then Err(Refus(UnsupportedDimension, "filters"))
      else if operator !in {Some(Str("eq")), Some(Str("neq")), Some(Str("is_null"))} then Err(Refus(InvalidFilter, "filters"))
      else if Get(entry.fields, "type") !in {None, Some(Str("string"))} then Err(Refus(InvalidFilter, "filters"))
      else if operator == Some(Str("is_null")) then
        if Nullish(value) then Ok(IsNull(field.value.s)) else Err(Refus(InvalidFilter, "filters"))
      else if !(value.Some? && value.value.Str? && IsSafeText(value.value.s, VALUE_MAX)) then Err(Refus(InvalidFilter, "filters"))
      else if field.value.s == "device" && value.value.s !in DEVICES then Err(Refus(InvalidFilter, "filters"))
      else if operator == Some(Str("eq")) then Ok(Eq(field.value.s, value.value.s))
      else Ok(Neq(field.value.s, value.value.s))
  }

  /** The conditions of a list of entries, or the refusal of the first entry that has one. */
  function ParseConditions(entries: seq<Json>): Result<seq<Condition>, Refus> {
    if entries == [] then Ok([])
    else
      match ParseCondition(entries[0])
      case Err(e) => Err(e)
      case Ok(c) =>
        match ParseConditions(entries[1..])
        case Err(e) => Err(e)
        case Ok(cs) => Ok([c] + cs)
  }

  function AstFilters(raw: Option<Json>): Result<seq<Condition>, Refus> {
    if Nullish(raw) then Ok([])
    else if !raw.value.Arr? then Err(Refus(InvalidQuery, "filters"))
    else if |raw.value.items| > MAX_CONDITIONS then Err(Refus(TooManyConditions, "filters"))
    else ParseConditions(raw.value.items)
  }

  /** Conditions already read, then what is left. */
  function Prepend(read: seq<Condition>, left: Result<seq<Condition>, Refus>): Result<seq<Condition>, Refus> {
    match left
    case Err(e) => Err(e)
    case Ok(cs) => Ok(read + cs)
  }

  lemma ReadOne(entries: seq<Json>, n: nat, read: seq<Condition>)
    requires n < |entries|
    ensures var c := ParseCondition(entries[n]);
            Prepend(read, ParseConditions(entries[n..]))
              == if c.Err? then Err(c.error) else Prepend(read + [c.value], ParseConditions(entries[n + 1..]))
  {
    assert entries[n..][0] == entries[n] && entries[n..][1..] == entries[n + 1..];
    if ParseCondition(entries[n]).Ok? && ParseConditions(entries[n + 1..]).Ok? {
      var c, cs := ParseCondition(entries[n]).value, ParseConditions(entries[n + 1..]).value;
      assert read + ([c] + cs) == (read + [c]) + cs;
    }
  }

  lemma PrependNone(left: Result<seq<Condition>, Refus>)
    ensures Prepend([], left) == left
  {
    if left.Ok? { assert [] + left.value == left.value; }
  }

  method ParseAstFilters(raw: Option<Json>) returns (r: Result<seq<Condition>, Refus>)
    ensures r == AstFilters(raw)
  {
    if Nullish(raw) { return Ok([]); }
    if !raw.value.Arr? { return Err(Refus(InvalidQuery, "filters")); }
    var entries := raw.value.items;
    if |entries| > MAX_CONDITIONS { return Err(Refus(TooManyConditions, "filters")); }
    var conditions: seq<Condition> := [];
    assert entries[0..] == entries;
    PrependNone(ParseConditions(entries));
    for n := 0 to |entries|
      invariant Prepend(conditions, ParseConditions(entries[n..])) == ParseConditions(entries)
    {
      ReadOne(entries, n, conditions);
      var c := ParseCondition(entries[n]);
      if c.Err? { return Err(c.error); }
      conditions := conditions + [c.value];
    }
    assert conditions + [] == conditions;
    return Ok(conditions);
  }

  /** Any text of at most 500 characters, not empty, none of them a control character. */
  predicate Speakable(s: string) {
    |s| != 0 && |s| < 501 && forall c :: c in s ==> c as int >= 32 && c as int != 127
  }

  predicate Absent(v: Option<Json>) {
    v.None? || v.value == Null
  }

  /** The entry is written so as to say this condition, and nothing else. */
  predicate Says(entry: Json, c: Condition) {
    && entry.Obj? && (forall k :: k in entry.fields ==> k == "field" || k == "operator" || k == "type" || k == "value")
    && var o := entry.fields;
       && "field" in o && o["field"] == Str(c.dimension) && "operator" in o
       && ("type" in o ==> o["type"] == Str("string"))
       && match c
          case IsNull(_) => o["operator"] == Str("is_null") && ("value" in o ==> o["value"] == Null)
          case Eq(_, v) => o["operator"] == Str("eq") && "value" in o && o["value"] == Str(v)
          case Neq(_, v) => o["operator"] == Str("neq") && "value" in o && o["value"] == Str(v)
  }

  /** A condition the contract lets in: a known dimension, a text value, and for the device one of the three. */
  predicate Admitted(c: Condition) {
    && c.dimension in DIMENSIONS
    && (!c.IsNull? ==> Speakable(c.value))
    && (c.dimension == "device" && !c.IsNull? ==> c.value == "desktop" || c.value == "mobile" || c.value == "tablet")
  }

  /** An entry is read as a condition if and only if it says that one and the contract lets it in. */
  lemma ConditionIsRead(entry: Json, c: Condition)
    ensures ParseCondition(entry) == Ok(c) <==> Says(entry, c) && Admitted(c)
  {
    if c.dimension in DIMENSIONS { DimensionNamesFit(c.dimension); }
    if !c.IsNull? { SpeakableIsSafe(c.value); }
  }

  lemma SpeakableIsSafe(s: string)
    ensures Speakable(s) <==> IsSafeText(s, VALUE_MAX)
  {
    if IsSafeText(s, VALUE_MAX) {
      forall c | c in s ensures c as int >= 32 && c as int != 127 {
        var i :| 0 <= i < |s| && s[i] == c;
      }
    }
    if Speakable(s) {
      forall i | 0 <= i < |s| ensures s[i] >= ' ' && s[i] != '\U{7F}' { assert s[i] in s; }
    }
  }

  /** How a refusal is named: by the shape of the entry, by its dimension, else by its operator, type or value. */
  lemma RefusalIsNamed(entry: Json)
    ensures ParseCondition(entry).Err? ==> ParseCondition(entry).error.parameter == "filters"
    ensures ParseCondition(entry).Err? ==>
              var named := entry.Obj? && entry.fields.Keys <= {"field", "operator", "type", "value"}
                           && "field" in entry.fields && entry.fields["field"].Str? && |entry.fields["field"].s| <= 100;
              && (ParseCondition(entry).error.code == InvalidQuery <==> !named)
              && (ParseCondition(entry).error.code == UnsupportedDimension <==> named && entry.fields["field"].s !in DIMENSIONS)
              && (ParseCondition(entry).error.code == InvalidFilter <==> named && entry.fields["field"].s in DIMENSIONS)
  {
  }

  /** A list of filters is read when it is not given, or holds ten entries at most, each one a condition. */
  lemma FiltersAreRead(raw: Option<Json>, cs: seq<Condition>)
    ensures AstFilters(raw) == Ok(cs) <==>
              || (Absent(raw) && cs == [])
              || (raw.Some? && raw.value.Arr? && |cs| <= 10 && AllRead(raw.value.items, cs))
    ensures AstFilters(raw).Err? && AstFilters(raw).error.code == TooManyConditions <==>
              raw.Some? && raw.value.Arr? && |raw.value.items| > 10
  {
    if raw.Some? && raw.value.Arr? { ConditionsAreRead(raw.value.items, cs); }
  }

  predicate AllRead(entries: seq<Json>, cs: seq<Condition>) {
    |entries| == |cs| && forall i :: 0 <= i < |cs| ==> ParseCondition(entries[i]) == Ok(cs[i])
  }

  lemma {:induction false} ConditionsAreRead(entries: seq<Json>, cs: seq<Condition>)
    ensures ParseConditions(entries) == Ok(cs) <==> AllRead(entries, cs)
    ensures ParseConditions(entries).Err? ==> ParseConditions(entries).error.code != TooManyConditions
  {
    if entries != [] {
      NeverTooMany(entries[0]);
      ConditionsAreRead(entries[1..], if cs == [] then [] else cs[1..]);
      if cs != [] { FirstRead(entries, cs); }
    }
  }

  lemma FirstRead(entries: seq<Json>, cs: seq<Condition>)
    requires entries != [] && cs != []
    ensures AllRead(entries, cs) <==> ParseCondition(entries[0]) == Ok(cs[0]) && AllRead(entries[1..], cs[1..])
    ensures ParseConditions(entries) == Ok(cs) <==> ParseCondition(entries[0]) == Ok(cs[0]) && ParseConditions(entries[1..]) == Ok(cs[1..])
  {
    assert cs == [cs[0]] + cs[1..];
    if ParseCondition(entries[0]) == Ok(cs[0]) && AllRead(entries[1..], cs[1..]) {
      forall i | 0 <= i < |cs| ensures ParseCondition(entries[i]) == Ok(cs[i]) {
        if i > 0 { assert entries[i] == entries[1..][i - 1] && cs[i] == cs[1..][i - 1]; }
      }
    }
    if AllRead(entries, cs) {
      forall i | 0 <= i < |cs| - 1 ensures ParseCondition(entries[1..][i]) == Ok(cs[1..][i]) {
        assert entries[1..][i] == entries[i + 1] && cs[1..][i] == cs[i + 1];
      }
    }
  }

  lemma NeverTooMany(entry: Json)
    ensures ParseCondition(entry).Err? ==> ParseCondition(entry).error.code != TooManyConditions
  {
  }

  // ------------------------------------------------------------------ printing filters

  function PrintCondition(c: Condition): Json {
    match c
    case IsNull(d) => Obj(map["field" := Str(d), "operator" := Str("is_null")])
    case Eq(d, v) => Obj(map["field" := Str(d), "operator" := Str("eq"), "type" := Str("string"), "value" := Str(v)])
    case Neq(d, v) => Obj(map["field" := Str(d), "operator" := Str("neq"), "type" := Str("string"), "value" := Str(v)])
  }

  function PrintConditions(cs: seq<Condition>): seq<Json> {
    if cs == [] then [] else [PrintCondition(cs[0])] + PrintConditions(cs[1..])
  }

  /** A condition the contract accepts, whatever path it came by. */
  predicate ValidCondition(c: Condition) {
    c.dimension in DIMENSIONS
    && (c.IsNull? || (IsSafeText(c.value, VALUE_MAX) && (c.dimension == "device" ==> c.value in DEVICES)))
  }

  predicate ValidConditions(cs: seq<Condition>) {
    |cs| <= MAX_CONDITIONS && forall c :: c in cs ==> ValidCondition(c)
  }

  lemma DimensionNamesFit(d: string)
    requires d in DIMENSIONS
    ensures |d| <= DIMENSION_NAME_MAX
  {
  }

  lemma ConditionRoundTrip(c: Condition)
    ensures ParseCondition(PrintCondition(c)) == Ok(c) <==> ValidCondition(c)
    ensures ParseCondition(PrintCondition(c)).Ok? ==> ValidCondition(c)
  {
    if c.dimension in DIMENSIONS { DimensionNamesFit(c.dimension); }
    var o := PrintCondition(c).fields;
    assert o.Keys <= FILTER_KEYS;
    assert Get(o, "field") == Some(Str(c.dimension));
    assert c.IsNull? ==> Get(o, "value") == None && Get(o, "type") == None;
  }

  lemma {:induction false} PrintedConditionsParse(cs: seq<Condition>)
    ensures |PrintConditions(cs)| == |cs|
    ensures (forall c :: c in cs ==> ValidCondition(c)) <==> ParseConditions(PrintConditions(cs)) == Ok(cs)
  {
    if cs != [] {
      var printed := PrintConditions(cs);
      assert printed[0] == PrintCondition(cs[0]) && printed[1..] == PrintConditions(cs[1..]);
      ConditionRoundTrip(cs[0]);
      PrintedConditionsParse(cs[1..]);
      assert cs == [cs[0]] + cs[1..];
    }
  }

  /** The printed list reads back unchanged, in order, exactly when the contract accepts it. */
  lemma FiltersRoundTrip(cs: seq<Condition>)
    ensures AstFilters(Some(Arr(PrintConditions(cs)))) == Ok(cs) <==> ValidConditions(cs)
  {
    PrintedConditionsParse(cs);
  }

  lemma ParsedConditionValid(entry: Json)
    ensures ParseCondition(entry).Ok? ==> ValidCondition(ParseCondition(entry).value)
  {
  }

  lemma {:induction false} ParsedConditionsValid(entries: seq<Json>)
    ensures ParseConditions(entries).Ok? ==>
              |ParseConditions(entries).value| == |entries| && forall c :: c in ParseConditions(entries).value ==> ValidCondition(c)
  {
    if entries != [] {
      ParsedConditionValid(entries[0]);
      ParsedConditionsValid(entries[1..]);
    }
  }

  /** Every list the parser can produce survives being printed and read again. */
  lemma ParsedFiltersRoundTrip(raw: Option<Json>)
    requires AstFilters(raw).Ok?
    ensures AstFilters(Some(Arr(PrintConditions(AstFilters(raw).value)))) == AstFilters(raw)
  {
    if !Nullish(raw) { ParsedConditionsValid(raw.value.items); }
    FiltersRoundTrip(AstFilters(raw).value);
  }

  /** What a URL can put in the filters, once validated: `device`, the dedicated parameters, the segment. */
  predicate ValidFilters(f: Filters) {
    && (f.device.Some? ==> f.device.value in DEVICES)
    && (forall d :: d in f.params ==> IsSafeText(f.params[d], VALUE_MAX))
    && (forall c :: c in f.segments ==> ValidCondition(c))
    && |ConditionsOf(f)| <= MAX_CONDITIONS
  }

  lemma {:induction false} ParamConditionsValid(params: map<string, string>, names: seq<string>)
    requires forall d :: d in params ==> IsSafeText(params[d], VALUE_MAX)
    requires forall d :: d in names ==> d in DIMENSIONS && d != "device"
    ensures forall c :: c in ParamConditions(params, names) ==> ValidCondition(c)
  {
    if names != [] {
      ParamConditionsValid(params, names[1..]);
    }
  }

  lemma DevicesAreSafe(d: string)
    requires d in DEVICES
    ensures IsSafeText(d, VALUE_MAX)
  {
  }

  /** All the conditions of a population come back from the canonical AST, not only its segment. */
  lemma UrlFiltersRoundTrip(f: Filters)
    requires ValidFilters(f)
    ensures AstFilters(Some(Arr(PrintConditions(ConditionsOf(f))))) == Ok(ConditionsOf(f))
  {
    ParamConditionsValid(f.params, PARAM_DIMENSIONS);
    if f.device.Some? { DevicesAreSafe(f.device.value); }
    FiltersRoundTrip(ConditionsOf(f));
  }

  // ------------------------------------------------------------------ the plan

  datatype Cursor = Cursor(fingerprint: Fingerprint, ts: int, key: int)

  datatype CursorInput = NoCursor | Unreadable | Decoded(cursor: Cursor)

  datatype Range = Preset(name: string) | Custom(from: string, to: string)

  /** A resolved query: what the canonical AST and the cursor check need of it. */
  datatype Query = Query(
    requestedApp: Option<string>, effectiveApps: Option<seq<string>>,
    range: Range, from: int, to: int, points: nat, filters: Filters)

  datatype Plan = Plan(
    dataset: string, aggregation: string, field: string, property: Option<string>, variant: Option<string>,
    groupBy: seq<string>, visualization: string, limit: int, cursor: Option<Cursor>)

  /** What, changed, invalidates a cursor. The conditions are sorted before hashing: their order is not part of it. */
  datatype Fingerprint = Fingerprint(
    effectiveApps: Option<seq<string>>, from: int, to: int, dataset: string, variant: Option<string>,
    includeBots: bool, includeInternal: bool, segments: multiset<Condition>)

  function ExplorerFingerprint(query: Query, plan: Plan): Fingerprint {
    Fingerprint(query.effectiveApps, query.from, query.to, plan.dataset, plan.variant,
                query.filters.includeBots, query.filters.includeInternal, multiset(query.filters.segments))
  }

  function GroupDimensions(entries: seq<Json>, groupBy: seq<string>): Result<seq<string>, Refus> {
    if entries == [] then Ok(groupBy)
    else if !entries[0].Str? || |entries[0].s| > DIMENSION_NAME_MAX then Err(Refus(InvalidQuery, "groupBy"))
    else if entries[0].s !in DIMENSIONS then Err(Refus(UnsupportedDimension, "groupBy"))
    else if entries[0].s in groupBy then Err(Refus(InvalidQuery, "groupBy"))
    else GroupDimensions(entries[1..], groupBy + [entries[0].s])
  }

  function AstGroupBy(raw: Option<Json>): Result<seq<string>, Refus> {
    if Nullish(raw) then Ok([])
    else if !raw.value.Arr? then Err(Refus(InvalidQuery, "groupBy"))
    else if |raw.value.items| > MAX_GROUP_BY then Err(Refus(InvalidQuery, "groupBy"))
    else GroupDimensions(raw.value.items, [])
  }

  predicate DistinctNames(ss: seq<string>) {
    forall i, j :: 0 <= i < j < |ss| ==> ss[i] != ss[j]
  }

  predicate ValidGroupBy(groupBy: seq<string>) {
    |groupBy| <= MAX_GROUP_BY && DistinctNames(groupBy) && forall d :: d in groupBy ==> d in DIMENSIONS
  }

  /** The names a stored grouping lists, in its order; nothing stored lists none. */
  ghost predicate Lists(raw: Option<Json>, groupBy: seq<string>) {
    if Nullish(raw) then groupBy == []
    else raw.value.Arr? && ListsAll(raw.value.items, groupBy)
  }

  ghost predicate ListsAll(entries: seq<Json>, groupBy: seq<string>) {
    |entries| == |groupBy| && forall i :: 0 <= i < |groupBy| ==> entries[i] == Str(groupBy[i])
  }

  /** A grouping is read if and only if what it lists is valid, and then it is read as listed. */
  method ParseGroupBy(raw: Option<Json>) returns (r: Result<seq<string>, Refus>)
    ensures r.Ok? ==> Lists(raw, r.value) && ValidGroupBy(r.value)
    ensures r.Err? ==> forall groupBy :: Lists(raw, groupBy) ==> !ValidGroupBy(groupBy)
    ensures r == AstGroupBy(raw)
  {
    if Nullish(raw) { return Ok([]); }
    if !raw.value.Arr? { return Err(Refus(InvalidQuery, "groupBy")); }
    var entries := raw.value.items;
    if |entries| > MAX_GROUP_BY { return Err(Refus(InvalidQuery, "groupBy")); }
    var groupBy: seq<string> := [];
    for n := 0 to |entries|
      invariant GroupDimensions(entries, []) == GroupDimensions(entries[n..], groupBy)
      invariant ListsAll(entries[..n], groupBy) && ValidGroupBy(groupBy)
    {
      var entry := entries[n];
      assert entries[n..][0] == entry && entries[n..][1..] == entries[n + 1..];
      EntryDecides(entries, n, groupBy);
      if !entry.Str? || |entry.s| > DIMENSION_NAME_MAX { return Err(Refus(InvalidQuery, "groupBy")); }
      if entry.s !in DIMENSIONS { return Err(Refus(UnsupportedDimension, "groupBy")); }
      if entry.s in groupBy { return Err(Refus(InvalidQuery, "groupBy")); }
      groupBy := groupBy + [entry.s];
    }
    return Ok(groupBy);
  }

  /** A valid grouping goes on with a known dimension it has not named yet. */
  lemma EntryDecides(entries: seq<Json>, n: nat, sofar: seq<string>)
    requires n < |entries| && ListsAll(entries[..n], sofar)
    ensures forall groupBy :: ListsAll(entries, groupBy) && ValidGroupBy(groupBy) ==>
              entries[n].Str? && |entries[n].s| <= DIMENSION_NAME_MAX && entries[n].s in DIMENSIONS && entries[n].s !in sofar
  {
    forall groupBy | ListsAll(entries, groupBy) && ValidGroupBy(groupBy)
      ensures entries[n].Str? && |entries[n].s| <= DIMENSION_NAME_MAX && entries[n].s in DIMENSIONS && entries[n].s !in sofar
    {
      assert entries[n] == Str(groupBy[n]);
      DimensionNamesFit(groupBy[n]);
      forall i | 0 <= i < n ensures sofar[i] != groupBy[n] {
        assert entries[..n][i] == entries[i];
      }
    }
  }

  predicate Letter(c: char) {
    'a' <= c <= 'z' || 'A' <= c <= 'Z'
  }

  /** A letter, then at most 99 letters, digits, dots, underscores or hyphens. */
  predicate PropertyKey(s: string) {
    0 < |s| <= 100 && Letter(s[0])
    && forall i :: 1 <= i < |s| ==> Letter(s[i]) || '0' <= s[i] <= '9' || s[i] == '.' || s[i] == '_' || s[i] == '-'
  }

  datatype Measure = Measure(aggregation: string, field: string, property: Option<string>, definition: Field)

  function ParseMeasure(dataset: Dataset, raw: Option<Json>): Result<Measure, Refus> {
    if !(raw.Some? && raw.value.Obj?) then Err(Refus(InvalidQuery, "measure"))
    else
      var o := raw.value.fields;
      if !(o.Keys <= {"aggregation", "field", "property"}) then Err(Refus(InvalidQuery, "measure"))
      else
        var aggregation, field := Get(o, "aggregation"), Get(o, "field");
        if !(field.Some? && field.value.Str? && |field.value.s| <= DIMENSION_NAME_MAX) then Err(Refus(InvalidQuery, "measure"))
        else if field.value.s !in dataset.fields then Err(Refus(UnsupportedMeasure, "measure"))
        else if !(aggregation.Some? && aggregation.value.Str? && aggregation.value.s in AGGREGATIONS) then
          Err(Refus(InvalidQuery, "measure"))
        else
          var definition := dataset.fields[field.value.s];
          if aggregation.value.s !in definition.aggregations then Err(Refus(UnsupportedMeasure, "measure"))
          else
            var property := Get(o, "property");
            if definition.kind == JsonProperty then
              if property.Some? && property.value.Str? && PropertyKey(property.value.s) then
                Ok(Measure(aggregation.value.s, field.value.s, Some(property.value.s), definition))
              else Err(Refus(InvalidQuery, "measure"))
            else if property.Some? then Err(Refus(InvalidQuery, "measure"))
            else Ok(Measure(aggregation.value.s, field.value.s, None, definition))
  }

  /** A measure tied to a sub-population imposes it. A tie to a missing axis is a registry fault, excluded by `WellFormed`. */
  function ParseVariant(axis: Option<Axis>, raw: Option<Json>, field: Field): Result<Option<string>, Refus> {
    if axis.None? then
      if Nullish(raw) then Ok(None) else Err(Refus(InvalidQuery, "variant"))
    else if !Nullish(raw) && !(raw.value.Str? && raw.value.s in axis.value.values) then Err(Refus(InvalidQuery, "variant"))
    else if field.variant.Some? then
      if !Nullish(raw) && raw != Some(Str(field.variant.value)) then Err(Refus(InvalidQuery, "variant"))
      else Ok(field.variant)
    else if Nullish(raw) then
      if axis.value.required then Err(Refus(InvalidQuery, "variant")) else Ok(None)
    else Ok(Some(raw.value.s))
  }

  function ParseLimit(raw: Option<Json>, visualization: string): Result<int, Refus> {
    if Nullish(raw) then Ok(if visualization == "table" then DEFAULT_ROWS else 10)
    else
      var max := if visualization == "table" then MAX_ROWS else MAX_GROUPS;
      if raw.value.Num? && raw.value.n == raw.value.n.Floor as real && 1 <= raw.value.n.Floor <= max then
        Ok(raw.value.n.Floor)
      else Err(Refus(InvalidQuery, "limit"))
  }

  function ParseVisualization(raw: Option<Json>): Result<string, Refus> {
    if Nullish(raw) then Ok("value")
    else if raw.value.Str? && raw.value.s in VISUALIZATIONS then Ok(raw.value.s)
    else Err(Refus(UnsupportedVisualization, "visualization"))
  }

  // ------------------------------------------------------------------ what the parts of a plan accept

  predicate Spells(o: map<string, Json>, key: string, s: string) {
    key in o && o[key] == Str(s)
  }

  /** A measure is read if and only if it names an aggregation its field allows, and a property exactly when the field is read from JSON. */
  lemma MeasureIsRead(dataset: Dataset, raw: Option<Json>, m: Measure)
    ensures ParseMeasure(dataset, raw) == Ok(m) <==>
              && raw.Some? && raw.value.Obj?
              && var o := raw.value.fields;
                 && (forall k :: k in o ==> k == "aggregation" || k == "field" || k == "property")
                 && Spells(o, "field", m.field) && Spells(o, "aggregation", m.aggregation)
                 && |m.field| <= 100 && m.field in dataset.fields && m.definition == dataset.fields[m.field]
                 && m.aggregation in AGGREGATIONS && m.aggregation in m.definition.aggregations
                 && (if m.definition.kind == JsonProperty
                     then m.property.Some? && PropertyKey(m.property.value) && Spells(o, "property", m.property.value)
                     else m.property.None? && "property" !in o)
  {
  }

  /** The sub-population: none without an axis; else the one the measure imposes, the one named, or none where none is required. */
  lemma VariantIsRead(axis: Option<Axis>, raw: Option<Json>, field: Field, v: Option<string>)
    requires field.variant.Some? ==> axis.Some? && field.variant.value in axis.value.values
    ensures ParseVariant(axis, raw, field) == Ok(v) <==>
              && (v.Some? ==> axis.Some? && v.value in axis.value.values)
              && (Absent(raw) || (v.Some? && raw == Some(Str(v.value))))
              && (field.variant.Some? ==> v == field.variant)
              && (field.variant.None? && Absent(raw) ==> v.None? && (axis.Some? ==> !axis.value.required))
  {
  }

  /** The number of rows: a whole number from 1 to 200 in a journal, to 50 elsewhere; 50 and 10 when it is not said. */
  lemma LimitIsRead(raw: Option<Json>, visualization: string, n: int)
    ensures ParseLimit(raw, visualization) == Ok(n) <==>
              if Absent(raw) then n == (if visualization == "table" then 50 else 10)
              else raw == Some(Num(n as real)) && 1 <= n <= (if visualization == "table" then 200 else 50)
  {
  }

  lemma VisualizationIsRead(raw: Option<Json>, v: string)
    ensures ParseVisualization(raw) == Ok(v) <==>
              if Absent(raw) then v == "value"
              else raw == Some(Str(v)) && (v == "value" || v == "toplist" || v == "timeseries" || v == "table")
  {
  }

  /** A cursor is taken only by a journal read under a query, and only if nothing its fingerprint holds has changed. */
  lemma CursorIsTaken(plan: Plan, cursor: CursorInput, query: Option<Query>, p: Plan)
    ensures PlanCursor(plan, cursor, query) == Ok(p) <==>
              || (cursor.NoCursor? && p == plan)
              || (&& cursor.Decoded? && query.Some? && plan.visualization == "table" && p == plan.(cursor := Some(cursor.cursor))
                  && SameQuestion(cursor.cursor.fingerprint, query.value, plan))
    ensures PlanCursor(plan, cursor, query).Err? ==>
              PlanCursor(plan, cursor, query).error ==
                Refus(if cursor.Decoded? && query.Some? && plan.visualization == "table" then StaleCursor else InvalidCursor, "cursor")
  {
  }

  predicate SameQuestion(f: Fingerprint, query: Query, plan: Plan) {
    && f.effectiveApps == query.effectiveApps && f.from == query.from && f.to == query.to
    && f.dataset == plan.dataset && f.variant == plan.variant
    && f.includeBots == query.filters.includeBots && f.includeInternal == query.filters.includeInternal
    && f.segments == multiset(query.filters.segments)
  }

  function PlanCursor(plan: Plan, cursor: CursorInput, query: Option<Query>): Result<Plan, Refus> {
    match cursor
    case Unreadable => Err(Refus(InvalidCursor, "cursor"))
    case NoCursor => Ok(plan)
    case Decoded(c) =>
      if query.None? || plan.visualization != "table" then Err(Refus(InvalidCursor, "cursor"))
      else if c.fingerprint != ExplorerFingerprint(query.value, plan) then Err(Refus(StaleCursor, "cursor"))
      else Ok(plan.(cursor := Some(c)))
  }

  /** `ExplorerPlanSource`, less the cursor: `undefined` is `None`. */
  datatype PlanSource = PlanSource(
    dataset: Option<Json>, measure: Option<Json>, variant: Option<Json>,
    visualization: Option<Json>, groupBy: Option<Json>, limit: Option<Json>)

  function SourceOf(o: map<string, Json>): PlanSource {
    PlanSource(Get(o, "dataset"), Get(o, "measure"), Get(o, "variant"),
               Get(o, "visualization"), Get(o, "groupBy"), Get(o, "limit"))
  }

  /** The plan before its cursor is looked at: each part in turn, the first refusal wins. */
  function ParsePlan(reg: Registry, source: PlanSource, query: Option<Query>): Result<Plan, Refus> {
    if !(source.dataset.Some? && source.dataset.value.Str? && source.dataset.value.s in reg) then
      Err(Refus(UnsupportedDataset, "dataset"))
    else
      var definition := reg[source.dataset.value.s];
      match ParseMeasure(definition, source.measure)
      case Err(e) => Err(e)
      case Ok(m) =>
        match ParseVariant(definition.axis, source.variant, m.definition)
        case Err(e) => Err(e)
        case Ok(variant) =>
          match ParseVisualization(source.visualization)
          case Err(e) => Err(e)
          case Ok(visualization) =>
            if visualization == "timeseries" && !m.definition.bucketable then
              Err(Refus(UnsupportedVisualization, "visualization"))
            else if query.Some? && visualization == "timeseries" && query.value.points > MAX_POINTS then
              Err(Refus(InvalidQuery, "range"))
            else
              match AstGroupBy(source.groupBy)
              case Err(e) => Err(e)
              case Ok(groupBy) =>
                match ParseLimit(source.limit, visualization)
                case Err(e) => Err(e)
                case Ok(limit) =>
                  Ok(Plan(source.dataset.value.s, m.aggregation, m.field, m.property, variant, groupBy, visualization, limit, None))
  }

  /** A plan is read if and only if each of its parts is, and a series has buckets to draw and no more than 300. */
  lemma PlanIsRead(reg: Registry, source: PlanSource, query: Option<Query>, p: Plan)
    ensures ParsePlan(reg, source, query) == Ok(p) <==>
              && source.dataset == Some(Str(p.dataset)) && p.dataset in reg && p.cursor == None
              && ParseMeasure(reg[p.dataset], source.measure).Ok?
              && var m := ParseMeasure(reg[p.dataset], source.measure).value;
                 && p.aggregation == m.aggregation && p.field == m.field && p.property == m.property
                 && ParseVariant(reg[p.dataset].axis, source.variant, m.definition) == Ok(p.variant)
                 && ParseVisualization(source.visualization) == Ok(p.visualization)
                 && AstGroupBy(source.groupBy) == Ok(p.groupBy) && ParseLimit(source.limit, p.visualization) == Ok(p.limit)
                 && (p.visualization == "timeseries" ==> m.definition.bucketable && (query.Some? ==> query.value.points <= 300))
  {
  }

  function ParseExplorerPlan(reg: Registry, source: PlanSource, cursor: CursorInput, query: Option<Query>): Result<Plan, Refus> {
    match ParsePlan(reg, source, query)
    case Err(e) => Err(e)
    case Ok(plan) => PlanCursor(plan, cursor, query)
  }

  // ------------------------------------------------------------------ printing the plan

  function PrintStrings(ss: seq<string>): seq<Json> {
    if ss == [] then [] else [Str(ss[0])] + PrintStrings(ss[1..])
  }

  function PrintMeasure(plan: Plan): map<string, Json> {
    map["aggregation" := Str(plan.aggregation), "field" := Str(plan.field)]
    + (if plan.property.Some? && plan.property.value != "" then map["property" := Str(plan.property.value)] else map[])
  }

  function PrintRange(range: Range): Json {
    match range
    case Preset(name) => Obj(map["preset" := Str(name)])
    case Custom(from, to) => Obj(map["from" := Str(from), "to" := Str(to)])
  }

  /** The keys that say what to measure. */
  function PlanAst(plan: Plan): map<string, Json> {
    map["dataset" := Str(plan.dataset),
        "measure" := Obj(PrintMeasure(plan)),
        "groupBy" := Arr(PrintStrings(plan.groupBy)),
        "visualization" := Str(plan.visualization),
        "limit" := Num(plan.limit as real)]
    + (if plan.variant.Some? then map["variant" := Str(plan.variant.value)] else map[])
  }

  /** The keys that say on what population. */
  function QueryAst(query: Query): map<string, Json> {
    map["version" := Num(1.0),
        "app" := if query.requestedApp.Some? then Str(query.requestedApp.value) else Null,
        "range" := PrintRange(query.range),
        "filters" := Arr(PrintConditions(ConditionsOf(query.filters)))]
    + (if query.filters.includeBots then map["includeBots" := Bool(true)] else map[])
    + (if query.filters.includeInternal then map["includeInternal" := Bool(true)] else map[])
  }

  function CanonicalAst(query: Query, plan: Plan): map<string, Json> {
    QueryAst(query) + PlanAst(plan)
  }

  // ------------------------------------------------------------------ what an accepted plan is

  lemma {:induction false} GroupDimensionsValid(entries: seq<Json>, acc: seq<string>)
    requires DistinctNames(acc) && forall d :: d in acc ==> d in DIMENSIONS
    ensures GroupDimensions(entries, acc).Ok? ==>
              var g := GroupDimensions(entries, acc).value;
              |g| == |acc| + |entries| && DistinctNames(g) && forall d :: d in g ==> d in DIMENSIONS
  {
    if entries != [] && entries[0].Str? && entries[0].s in DIMENSIONS && entries[0].s !in acc {
      GroupDimensionsValid(entries[1..], acc + [entries[0].s]);
    }
  }

  lemma {:induction false} PrintedGroupsParse(groupBy: seq<string>, acc: seq<string>)
    requires DistinctNames(acc + groupBy) && forall d :: d in groupBy ==> d in DIMENSIONS
    ensures |PrintStrings(groupBy)| == |groupBy|
    ensures GroupDimensions(PrintStrings(groupBy), acc) == Ok(acc + groupBy)
  {
    if groupBy == [] {
      assert acc + groupBy == acc;
    } else {
      DimensionNamesFit(groupBy[0]);
      assert (acc + groupBy)[|acc|] == groupBy[0];
      forall i | 0 <= i < |acc| ensures acc[i] != groupBy[0] { assert (acc + groupBy)[i] == acc[i]; }
      assert acc + groupBy == acc + [groupBy[0]] + groupBy[1..];
      PrintedGroupsParse(groupBy[1..], acc + [groupBy[0]]);
    }
  }

  /** The group-by list reads back unchanged exactly when it is one the contract accepts. */
  lemma GroupByRoundTrip(raw: Option<Json>)
    requires AstGroupBy(raw).Ok?
    ensures ValidGroupBy(AstGroupBy(raw).value)
    ensures AstGroupBy(Some(Arr(PrintStrings(AstGroupBy(raw).value)))) == AstGroupBy(raw)
  {
    if !Nullish(raw) { GroupDimensionsValid(raw.value.items, []); }
    var g := AstGroupBy(raw).value;
    assert [] + g == g;
    PrintedGroupsParse(g, []);
  }

  lemma MeasureRoundTrip(dataset: Dataset, raw: Option<Json>, plan: Plan)
    requires ParseMeasure(dataset, raw).Ok?
    requires var m := ParseMeasure(dataset, raw).value;
             plan.aggregation == m.aggregation && plan.field == m.field && plan.property == m.property
    ensures ParseMeasure(dataset, Some(Obj(PrintMeasure(plan)))) == ParseMeasure(dataset, raw)
  {
    var o := PrintMeasure(plan);
    assert o.Keys <= {"aggregation", "field", "property"};
  }

  lemma VariantRoundTrip(axis: Option<Axis>, raw: Option<Json>, field: Field)
    requires field.variant.Some? ==> axis.Some? && field.variant.value in axis.value.values
    requires ParseVariant(axis, raw, field).Ok?
    ensures var v := ParseVariant(axis, raw, field).value;
            ParseVariant(axis, if v.Some? then Some(Str(v.value)) else None, field) == Ok(v)
  {
  }

  lemma PlanAstKeys(plan: Plan)
    ensures PlanAst(plan).Keys == {"dataset", "measure", "groupBy", "visualization", "limit"}
                                  + (if plan.variant.Some? then {"variant"} else {})
    ensures Get(PlanAst(plan), "dataset") == Some(Str(plan.dataset))
    ensures Get(PlanAst(plan), "measure") == Some(Obj(PrintMeasure(plan)))
    ensures Get(PlanAst(plan), "groupBy") == Some(Arr(PrintStrings(plan.groupBy)))
    ensures Get(PlanAst(plan), "visualization") == Some(Str(plan.visualization))
    ensures Get(PlanAst(plan), "limit") == Some(Num(plan.limit as real))
    ensures Get(PlanAst(plan), "variant") == if plan.variant.Some? then Some(Str(plan.variant.value)) else None
  {
  }

  lemma QueryAstKeys(query: Query)
    ensures QueryAst(query).Keys <= {"version", "app", "range", "filters", "includeBots", "includeInternal"}
    ensures Get(QueryAst(query), "filters") == Some(Arr(PrintConditions(ConditionsOf(query.filters))))
  {
  }

  /** What the AST says of the population besides its conditions: its version, its app, its range, and the two flags when they are set. */
  lemma PopulationIsSaid(query: Query)
    ensures var o := QueryAst(query);
            && Get(o, "version") == Some(Num(1.0))
            && Get(o, "app") == Some(match query.requestedApp case Some(app) => Str(app) case None => Null)
            && (match query.range
                case Preset(name) => Get(o, "range") == Some(Obj(map["preset" := Str(name)]))
                case Custom(from, to) => Get(o, "range") == Some(Obj(map["from" := Str(from), "to" := Str(to)])))
            && Get(o, "includeBots") == (if query.filters.includeBots then Some(Bool(true)) else None)
            && Get(o, "includeInternal") == (if query.filters.includeInternal then Some(Bool(true)) else None)
  {
  }

  /** The canonical AST holds each part of the plan, and the conditions, under its own key. */
  lemma AstKeys(query: Query, plan: Plan)
    ensures var ast := CanonicalAst(query, plan);
            && (forall k :: k in {"dataset", "measure", "groupBy", "visualization", "limit", "variant"} ==>
                 Get(ast, k) == Get(PlanAst(plan), k))
            && Get(ast, "filters") == Some(Arr(PrintConditions(ConditionsOf(query.filters))))
  {
    var q, p := QueryAst(query), PlanAst(plan);
    PlanAstKeys(plan);
    QueryAstKeys(query);
    forall k | k in {"dataset", "measure", "groupBy", "visualization", "limit", "variant"} ensures Get(q + p, k) == Get(p, k) {
      GetOfUnion(q, p, k);
    }
    GetOfUnion(q, p, "filters");
  }

  lemma GetOfUnion(a: map<string, Json>, b: map<string, Json>, k: string)
    ensures Get(a + b, k) == if k in b || k !in a then Get(b, k) else Get(a, k)
  {
  }

  function PrintedSource(plan: Plan): PlanSource {
    PlanSource(Some(Str(plan.dataset)), Some(Obj(PrintMeasure(plan))),
               if plan.variant.Some? then Some(Str(plan.variant.value)) else None,
               Some(Str(plan.visualization)), Some(Arr(PrintStrings(plan.groupBy))), Some(Num(plan.limit as real)))
  }

  lemma PrintedSourceIsAst(query: Query, plan: Plan)
    ensures SourceOf(CanonicalAst(query, plan)) == PrintedSource(plan)
  {
    AstKeys(query, plan);
    PlanAstKeys(plan);
  }

  lemma LimitRoundTrip(raw: Option<Json>, visualization: string)
    requires ParseLimit(raw, visualization).Ok?
    ensures var limit := ParseLimit(raw, visualization).value;
            limit >= 1 && ParseLimit(Some(Num(limit as real)), visualization) == Ok(limit)
  {
  }

  lemma PartsRoundTrip(reg: Registry, source: PlanSource, query: Option<Query>)
    requires WellFormed(reg) && ParsePlan(reg, source, query).Ok?
    ensures ParsePlan(reg, PrintedSource(ParsePlan(reg, source, query).value), None) == ParsePlan(reg, source, query)
  {
    var plan := ParsePlan(reg, source, query).value;
    var definition := reg[plan.dataset];
    MeasureRoundTrip(definition, source.measure, plan);
    VariantRoundTrip(definition.axis, source.variant, definition.fields[plan.field]);
    GroupByRoundTrip(source.groupBy);
    LimitRoundTrip(source.limit, plan.visualization);
  }

  /** The cursor is all that a page adds to a plan. */
  lemma PlanWithoutCursor(plan: Plan, cursor: CursorInput, query: Option<Query>)
    requires plan.cursor == None && PlanCursor(plan, cursor, query).Ok?
    ensures PlanCursor(plan, cursor, query).value.(cursor := None) == plan
    ensures PrintedSource(PlanCursor(plan, cursor, query).value) == PrintedSource(plan)
  {
  }

  /** An accepted plan, printed and read again as a stored plan, is the same plan without its page. */
  lemma PlanRoundTrip(reg: Registry, source: PlanSource, cursor: CursorInput, query: Option<Query>, plan: Plan, printed: Query)
    requires WellFormed(reg) && ParseExplorerPlan(reg, source, cursor, query) == Ok(plan)
    ensures ParseExplorerPlan(reg, SourceOf(CanonicalAst(printed, plan)), NoCursor, None) == Ok(plan.(cursor := None))
  {
    PartsRoundTrip(reg, source, query);
    PlanWithoutCursor(ParsePlan(reg, source, query).value, cursor, query);
    PrintedSourceIsAst(printed, plan);
  }

  /** The registry of the console satisfies what the round trip asks of it. */
  lemma ConsolePlanRoundTrip(source: PlanSource, cursor: CursorInput, query: Option<Query>, plan: Plan, printed: Query)
    requires ParseExplorerPlan(EXPLORER_DATASETS, source, cursor, query) == Ok(plan)
    ensures ParseExplorerPlan(EXPLORER_DATASETS, SourceOf(CanonicalAst(printed, plan)), NoCursor, None)
              == Ok(plan.(cursor := None))
  {
    RegistryWellFormed();
    PlanRoundTrip(EXPLORER_DATASETS, source, cursor, query, plan, printed);
  }

  /** Everything a stored analysis needs is in its AST: its plan, and every condition of its population. */
  lemma StoredAnalysisRoundTrip(source: PlanSource, cursor: CursorInput, query: Query, plan: Plan)
    requires ValidFilters(query.filters)
    requires ParseExplorerPlan(EXPLORER_DATASETS, source, cursor, Some(query)) == Ok(plan)
    ensures var ast := CanonicalAst(query, plan);
            && ParseExplorerPlan(EXPLORER_DATASETS, SourceOf(ast), NoCursor, None) == Ok(plan.(cursor := None))
            && AstFilters(Get(ast, "filters")) == Ok(ConditionsOf(query.filters))
  {
    ConsolePlanRoundTrip(source, cursor, Some(query), plan, query);
    AstKeys(query, plan);
    UrlFiltersRoundTrip(query.filters);
  }
}
