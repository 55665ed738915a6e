/**
 The hybrid read of a histogram: whole hours from the aggregate, everything else from the measures.
 Each common table expression of the statement is given its relational meaning, and the statement as
 a whole is compared with the plain count of the measures it is meant to stand for.
 */
module HybridRead {
  import opened Basics
  import opened QueryContract
  import opened Conditions
  import opened RumTables

  /** A resolved query: window, sub-population, optional grouping by device, filters. */
  datatype Question = Question(
    scope: Scope, from: int, to: int, variant: string, byDevice: bool, filters: Filters)

  predicate PassesAll(db: Db, m: Metric, conditions: seq<Condition>) {
    AllPass(conditions, DeviceOf(db, m), m.dims)
  }

  function GroupOf(db: Db, q: Question, m: Metric): Option<string> {
    if q.byDevice then DeviceOf(db, m) else None
  }

  // ------------------------------------------------------------------ the raw read

  predicate InWindow(q: Question, m: Metric) {
    q.from <= m.ts < q.to && m.name == q.variant && InScope(q.scope, m.app)
  }

  /** The population of the raw path: window, scope, robots, and every condition of the query. */
  predicate InPopulation(db: Db, q: Question, m: Metric) {
    InWindow(q, m) && (q.filters.includeBots || !IsBot(db, m)) && PassesAll(db, m, ConditionsOf(q.filters))
  }

  ghost function RawIds(db: Db, q: Question, g: Option<string>, b: nat): set<nat> {
    set id | id in db.metrics && InPopulation(db, q, db.metrics[id])
             && GroupOf(db, q, db.metrics[id]) == g && db.metrics[id].bucket == b
  }

  // ------------------------------------------------------------------ the hybrid read

  /** `cadre`: first whole hour of the window, and the end of what the refresh covers in it. */
  function Hb(q: Question): int {
    CeilHour(q.from)
  }

  function Hw(db: Db, q: Question): int {
    Min(HourOf(RefreshedAt(db)), HourOf(q.to))
  }

  /** `heures`: hours of the window read from the aggregate, app by app. */
  ghost predicate Covered(db: Db, q: Question, app: string, hour: int) {
    Hb(q) <= hour < Hw(db, q) && InScope(q.scope, app) && Trusted(db, app, hour, q.variant)
  }

  /** `nullif(device_type, '')`. */
  function NullIf(device: string): Option<string> {
    if device == "" then None else Some(device)
  }

  /** `predicatsDimension` on the aggregate side: only the segment is compiled. */
  predicate CellPasses(k: Cell, conditions: seq<Condition>) {
    forall c :: c in conditions ==> Passes(c, NullIf(k.device))
  }

  function CellGroup(q: Question, k: Cell): Option<string> {
    if q.byDevice then NullIf(k.device) else None
  }

  ghost function AggregateCells(db: Db, q: Question): set<Cell> {
    set k | k in db.cells && k.name == q.variant && Covered(db, q, k.app, k.hour)
            && CellPasses(k, q.filters.segments)
  }

  ghost function CellsOf(db: Db, q: Question, g: Option<string>, b: nat): set<Cell> {
    set k | k in AggregateCells(db, q) && CellGroup(q, k) == g && k.bucket == b
  }

  ghost function SumCells(cells: map<Cell, nat>, ks: set<Cell>): nat
    requires ks <= cells.Keys
  {
    if ks == {} then 0 else cells[Pick(ks)] + SumCells(cells, ks - {Pick(ks)})
  }

  /** `agregat`. */
  ghost function AggregateCount(db: Db, q: Question, g: Option<string>, b: nat): nat {
    SumCells(db.cells, CellsOf(db, q, g, b))
  }

  /** `brut`: the complement, above the identifier watermark or in an hour that is not covered. */
  ghost predicate InBrut(db: Db, q: Question, id: nat, m: Metric) {
    && InWindow(q, m) && !IsBot(db, m)
    && (id > Wid(db) || !Covered(db, q, m.app, HourOf(m.ts)))
    && PassesAll(db, m, q.filters.segments)
  }

  ghost function BrutIds(db: Db, q: Question, g: Option<string>, b: nat): set<nat> {
    set id | id in db.metrics && InBrut(db, q, id, db.metrics[id])
             && GroupOf(db, q, db.metrics[id]) == g && db.metrics[id].bucket == b
  }

  /** What `union all` and the merge of buckets add up to, for one group and one bucket. */
  ghost function HybridCount(db: Db, q: Question, g: Option<string>, b: nat): nat {
    AggregateCount(db, q, g, b) + |BrutIds(db, q, g, b)|
  }

  ghost function RawCount(db: Db, q: Question, g: Option<string>, b: nat): nat {
    |RawIds(db, q, g, b)|
  }

  /** What the capacity check lets through: robots excluded, and only the device filtered in the segment. */
  predicate Answerable(q: Question) {
    !q.filters.includeBots && forall c :: c in q.filters.segments ==> c.dimension == "device"
  }

  /** A segment that clashes, or holds the other conditions, settles who passes. */
  lemma SegmentIsEnough(db: Db, f: Filters, m: Metric)
    requires Decided(f)
    ensures PassesAll(db, m, ConditionsOf(f)) <==> PassesAll(db, m, f.segments)
  {
    if PassesAll(db, m, f.segments) {
      HoldsPasses(f.segments, Dedicated(f), DeviceOf(db, m), m.dims);
    }
  }

  // ------------------------------------------------------------------ when the read is right

  /** The measures the read leaves to the cell. */
  ghost function LeftToCell(db: Db, k: Cell): set<nat> {
    set id | id in db.metrics && id <= Wid(db) && !IsBot(db, db.metrics[id]) && CellOf(db, db.metrics[id]) == k
  }

  ghost predicate Eligible(db: Db, k: Cell) {
    TrustedCell(db, k) && k.hour < HourOf(RefreshedAt(db))
  }

  /** Every cell a read can use counts exactly the measures that read leaves to it. */
  ghost predicate Sound(db: Db) {
    forall k :: Eligible(db, k) ==> Observed(db, k) == |LeftToCell(db, k)|
  }

  /** No measure left to a cell carries a device written as the empty string. */
  ghost predicate Clean(db: Db) {
    forall id :: (id in db.metrics && id <= Wid(db) && !IsBot(db, db.metrics[id])
                  && Eligible(db, CellOf(db, db.metrics[id]))) ==> DeviceOf(db, db.metrics[id]) != Some("")
  }

  // ------------------------------------------------------------------ the sum over cells is a count

  /** The rows of a set of cells, when each cell counts its own. */
  lemma {:induction false} SumIsCount(db: Db, ks: set<Cell>, rows: set<nat>)
    requires ks <= db.cells.Keys && rows <= db.metrics.Keys
    requires forall k :: k in ks ==> db.cells[k] == |set id | id in rows && CellOf(db, db.metrics[id]) == k|
    ensures SumCells(db.cells, ks) == |set id | id in rows && CellOf(db, db.metrics[id]) in ks|
    decreases |ks|
  {
    var all := set id | id in rows && CellOf(db, db.metrics[id]) in ks;
    if ks == {} {
      assert all == {};
    } else {
      var k := Pick(ks);
      var rest := ks - {k};
      SumIsCount(db, rest, rows);
      OneMoreCell(db, k, rest, rows);
      assert ks == {k} + rest;
    }
  }

  lemma OneMoreCell(db: Db, k: Cell, rest: set<Cell>, rows: set<nat>)
    requires rows <= db.metrics.Keys && k !in rest
    ensures |set id | id in rows && CellOf(db, db.metrics[id]) in {k} + rest|
         == |set id | id in rows && CellOf(db, db.metrics[id]) == k| + |set id | id in rows && CellOf(db, db.metrics[id]) in rest|
  {
    var all := set id | id in rows && CellOf(db, db.metrics[id]) in {k} + rest;
    var here := set id | id in rows && CellOf(db, db.metrics[id]) == k;
    var there := set id | id in rows && CellOf(db, db.metrics[id]) in rest;
    assert all == here + there && here !! there;
  }

  /** A covered hour lies inside the window: its measures need no further check of instant. */
  lemma CoveredInside(db: Db, q: Question, m: Metric)
    requires Covered(db, q, m.app, HourOf(m.ts))
    ensures q.from <= m.ts < q.to && HourOf(m.ts) < HourOf(RefreshedAt(db))
  {
    HoursApart(HourOf(m.ts), HourOf(q.to));
  }

  /** The measures of the population that the raw branch does not take. */
  ghost function CoveredIds(db: Db, q: Question, g: Option<string>, b: nat): set<nat> {
    set id | id in RawIds(db, q, g, b)
             && id <= Wid(db) && Covered(db, q, db.metrics[id].app, HourOf(db.metrics[id].ts))
  }

  /** No measure is in both branches and none is in neither. */
  lemma BranchesPartition(db: Db, q: Question, g: Option<string>, b: nat)
    requires Answerable(q) && Decided(q.filters)
    ensures RawIds(db, q, g, b) == CoveredIds(db, q, g, b) + BrutIds(db, q, g, b)
    ensures CoveredIds(db, q, g, b) !! BrutIds(db, q, g, b)
  {
    forall id | id in db.metrics { SegmentIsEnough(db, q.filters, db.metrics[id]); }
  }

  /** On the device, a cell and a measure of that cell answer every condition alike. */
  lemma CellSpeaksForMeasure(db: Db, q: Question, m: Metric)
    requires Answerable(q) && DeviceOf(db, m) != Some("")
    ensures NullIf(CellOf(db, m).device) == DeviceOf(db, m)
    ensures PassesAll(db, m, q.filters.segments) <==> CellPasses(CellOf(db, m), q.filters.segments)
    ensures GroupOf(db, q, m) == CellGroup(q, CellOf(db, m))
  {
  }

  /** A covered measure has a cell in the aggregate: its hour is believed, so its cell counts it. */
  lemma CoveredHasCell(db: Db, q: Question, id: nat)
    requires Sound(db) && id in db.metrics && id <= Wid(db) && !IsBot(db, db.metrics[id])
    requires db.metrics[id].name == q.variant && Covered(db, q, db.metrics[id].app, HourOf(db.metrics[id].ts))
    ensures Eligible(db, CellOf(db, db.metrics[id])) && CellOf(db, db.metrics[id]) in db.cells
  {
    var k := CellOf(db, db.metrics[id]);
    assert Eligible(db, k);
    assert id in LeftToCell(db, k);
    SubsetSize({id}, LeftToCell(db, k));
  }

  ghost function Unread(db: Db): set<nat> {
    set id | id in db.metrics && id <= Wid(db) && !IsBot(db, db.metrics[id])
  }

  lemma CoveredMeasureInCells(db: Db, q: Question, g: Option<string>, b: nat, id: nat)
    requires Sound(db) && Clean(db) && Answerable(q) && Decided(q.filters)
    requires id in CoveredIds(db, q, g, b)
    ensures id in Unread(db) && CellOf(db, db.metrics[id]) in CellsOf(db, q, g, b)
  {
    SegmentIsEnough(db, q.filters, db.metrics[id]);
    CoveredHasCell(db, q, id);
    CellSpeaksForMeasure(db, q, db.metrics[id]);
  }

  lemma CellMeasureIsCovered(db: Db, q: Question, g: Option<string>, b: nat, id: nat)
    requires Clean(db) && Answerable(q) && Decided(q.filters)
    requires id in Unread(db) && CellOf(db, db.metrics[id]) in CellsOf(db, q, g, b)
    ensures id in CoveredIds(db, q, g, b)
  {
    var m := db.metrics[id];
    SegmentIsEnough(db, q.filters, m);
    CoveredInside(db, q, m);
    assert Eligible(db, CellOf(db, m));
    CellSpeaksForMeasure(db, q, m);
  }

  lemma AggregateCountsCovered(db: Db, q: Question, g: Option<string>, b: nat)
    requires Sound(db) && Clean(db) && Answerable(q) && Decided(q.filters)
    ensures AggregateCount(db, q, g, b) == |CoveredIds(db, q, g, b)|
  {
    var ks, rows := CellsOf(db, q, g, b), Unread(db);
    forall k | k in ks
      ensures db.cells[k] == |set id | id in rows && CellOf(db, db.metrics[id]) == k|
    {
      assert Eligible(db, k);
      assert LeftToCell(db, k) == set id | id in rows && CellOf(db, db.metrics[id]) == k;
    }
    SumIsCount(db, ks, rows);
    var counted := set id | id in rows && CellOf(db, db.metrics[id]) in ks;
    forall id | id in counted ensures id in CoveredIds(db, q, g, b) { CellMeasureIsCovered(db, q, g, b, id); }
    forall id | id in CoveredIds(db, q, g, b) ensures id in counted { CoveredMeasureInCells(db, q, g, b, id); }
    assert counted == CoveredIds(db, q, g, b);
  }

  /** The hybrid read counts what the raw read counts, group by group and bucket by bucket. */
  lemma HybridEqualsRaw(db: Db, q: Question, g: Option<string>, b: nat)
    requires Sound(db) && Clean(db) && Answerable(q) && Decided(q.filters)
    ensures HybridCount(db, q, g, b) == RawCount(db, q, g, b)
  {
    AggregateCountsCovered(db, q, g, b);
    BranchesPartition(db, q, g, b);
  }

  // ------------------------------------------------------------------ what is counted, row by row

  /** A condition of the query, on the value a row gives to its dimension. */
  predicate Meets(c: Condition, value: Option<string>) {
    match c
    case Eq(_, v) => value == Some(v)
    case Neq(_, v) => value != None && value != Some(v)
    case IsNull(_) => value == None
  }

  /** The session of a measure: that of its identifier, if it belongs to the same app. */
  predicate HasSession(db: Db, m: Metric) {
    m.session.Some? && m.session.value in db.sessions && db.sessions[m.session.value].app == m.app
  }

  function Device(db: Db, m: Metric): Option<string> {
    if HasSession(db, m) then db.sessions[m.session.value].device else None
  }

  /** The value of a dimension, read on the row of a measure or of its session. */
  function Value(db: Db, m: Metric, d: string): Option<string> {
    if d == "device" then Device(db, m) else if d in m.dims then Some(m.dims[d]) else None
  }

  /** The measure is asked for: its device, each parameter of the address, and each condition of the segment. */
  predicate Asked(db: Db, f: Filters, m: Metric) {
    && (f.device.Some? ==> Device(db, m) == f.device)
    && (forall d :: d in f.params && d in PARAM_DIMENSIONS ==> Value(db, m, d) == Some(f.params[d]))
    && (forall c :: c in f.segments ==> Meets(c, Value(db, m, c.dimension)))
  }

  lemma AskedExactly(db: Db, f: Filters, m: Metric)
    ensures PassesAll(db, m, ConditionsOf(f)) <==> Asked(db, f, m)
  {
    if PassesAll(db, m, ConditionsOf(f)) { PassedIsAsked(db, f, m); }
    if Asked(db, f, m) { AskedPasses(db, f, m); }
  }

  lemma PassedIsAsked(db: Db, f: Filters, m: Metric)
    requires PassesAll(db, m, ConditionsOf(f))
    ensures Asked(db, f, m)
  {
    forall d | d in f.params && d in PARAM_DIMENSIONS ensures Value(db, m, d) == Some(f.params[d]) {
      ParamConditionsAre(f.params, PARAM_DIMENSIONS, Eq(d, f.params[d]));
      assert Eq(d, f.params[d]) in ConditionsOf(f);
    }
    if f.device.Some? { assert Eq("device", f.device.value) in ConditionsOf(f); }
  }

  lemma AskedPasses(db: Db, f: Filters, m: Metric)
    requires Asked(db, f, m)
    ensures PassesAll(db, m, ConditionsOf(f))
  {
    forall c | c in ConditionsOf(f) ensures Passes(c, DimensionIn(DeviceOf(db, m), m.dims, c.dimension)) {
      ParamConditionsAre(f.params, PARAM_DIMENSIONS, c);
      assert c in Dedicated(f) || c in f.segments;
    }
  }

  lemma {:induction false} ParamConditionsAre(params: map<string, string>, names: seq<string>, c: Condition)
    ensures c in ParamConditions(params, names) <==>
              c.Eq? && c.dimension in names && c.dimension in params && c.value == params[c.dimension]
  {
    if names != [] {
      ParamConditionsAre(params, names[1..], c);
    }
  }

  /**
   The raw read counts a measure when its instant is in the window, `to` excluded, it is of the metric and of
   an app of the scope, of no robot unless they are asked for, and its row is asked for by every filter.
   */
  lemma CountedExactly(db: Db, q: Question, g: Option<string>, b: nat, id: nat)
    ensures id in RawIds(db, q, g, b) <==>
              && id in db.metrics
              && var m := db.metrics[id];
                 && q.from <= m.ts < q.to && m.name == q.variant && Wanted(q.scope, m.app) && Asked(db, q.filters, m)
                 && (q.filters.includeBots || !(HasSession(db, m) && db.sessions[m.session.value].bot))
                 && g == (if q.byDevice then Device(db, m) else None) && b == m.bucket
  {
    if id in db.metrics { AskedExactly(db, q.filters, db.metrics[id]); }
  }

  predicate Wanted(scope: Scope, app: string) {
    (scope.Only? && app in scope.apps) || (scope.AllBut? && app !in scope.hidden)
  }

  function Over(q: Question, from: int, to: int): Question {
    q.(from := from, to := to)
  }

  /** Two windows end to end count what the whole window counts, and an empty one counts nothing. */
  lemma WindowsAddUp(db: Db, q: Question, x: int, y: int, z: int, g: Option<string>, b: nat)
    requires x <= y <= z
    ensures RawCount(db, Over(q, x, y), g, b) + RawCount(db, Over(q, y, z), g, b) == RawCount(db, Over(q, x, z), g, b)
    ensures q.from >= q.to ==> RawCount(db, q, g, b) == 0 && HybridCount(db, q, g, b) == 0
  {
    var left, right := RawIds(db, Over(q, x, y), g, b), RawIds(db, Over(q, y, z), g, b);
    assert RawIds(db, Over(q, x, z), g, b) == left + right && left !! right;
    if q.from >= q.to { EmptyWindow(db, q, g, b); }
  }

  lemma EmptyWindow(db: Db, q: Question, g: Option<string>, b: nat)
    requires q.from >= q.to
    ensures RawCount(db, q, g, b) == 0 && HybridCount(db, q, g, b) == 0
  {
    assert RawIds(db, q, g, b) == {} && BrutIds(db, q, g, b) == {};
    forall k: Cell ensures !Covered(db, q, k.app, k.hour) { NothingCovered(db, q, k.app, k.hour); }
    assert CellsOf(db, q, g, b) == {};
  }

  lemma NothingCovered(db: Db, q: Question, app: string, hour: int)
    requires q.from >= q.to
    ensures !Covered(db, q, app, hour)
  {
  }

  /** So do those of the hybrid read, wherever the two windows meet. */
  lemma HybridWindowsAddUp(db: Db, q: Question, x: int, y: int, z: int, g: Option<string>, b: nat)
    requires Sound(db) && Clean(db) && Answerable(q) && Decided(q.filters) && x <= y <= z
    ensures HybridCount(db, Over(q, x, y), g, b) + HybridCount(db, Over(q, y, z), g, b) == HybridCount(db, Over(q, x, z), g, b)
  {
    HybridEqualsRaw(db, Over(q, x, y), g, b);
    HybridEqualsRaw(db, Over(q, y, z), g, b);
    HybridEqualsRaw(db, Over(q, x, z), g, b);
    WindowsAddUp(db, q, x, y, z, g, b);
  }

  // ------------------------------------------------------------------ and only then

  /** Hours of the aggregate are written by `date_trunc`. */
  ghost predicate AlignedCells(db: Db) {
    forall k :: k in db.cells ==> k.hour % HOUR == 0
  }

  const NO_FILTER := Filters(None, map[], false, false, [])

  /** The device ranking of one app, one metric and one whole hour. */
  ghost function HourQuestion(app: string, hour: int, name: string): (q: Question)
    ensures Answerable(q) && Decided(q.filters)
  {
    assert ParamConditions(map[], PARAM_DIMENSIONS) == [] by { NoParamConditions(PARAM_DIMENSIONS); }
    Question(Only({app}), hour, hour + HOUR, name, true, NO_FILTER)
  }

  lemma {:induction false} NoParamConditions(names: seq<string>)
    ensures ParamConditions(map[], names) == []
  {
    if names != [] {
      NoParamConditions(names[1..]);
    }
  }

  lemma HourQuestionCovers(db: Db, k: Cell, app: string, hour: int)
    requires Eligible(db, k) && k.hour % HOUR == 0 && hour % HOUR == 0
    ensures Covered(db, HourQuestion(k.app, k.hour, k.name), app, hour) <==> app == k.app && hour == k.hour
  {
    if k.hour < hour {
      HoursApart(k.hour, hour);
    }
  }

  lemma SumOne(cells: map<Cell, nat>, k: Cell)
    requires k in cells
    ensures SumCells(cells, {k}) == cells[k]
  {
    assert Pick({k}) == k;
    assert {k} - {k} == {};
    assert SumCells(cells, {}) == 0;
    assert {k} != {};
  }

  lemma HourQuestionCells(db: Db, k: Cell)
    requires AlignedCells(db) && Eligible(db, k) && k.hour % HOUR == 0
    ensures AggregateCount(db, HourQuestion(k.app, k.hour, k.name), NullIf(k.device), k.bucket) == Observed(db, k)
  {
    var q := HourQuestion(k.app, k.hour, k.name);
    var ks := CellsOf(db, q, NullIf(k.device), k.bucket);
    HourQuestionCovers(db, k, k.app, k.hour);
    forall x | x in ks ensures x == k { HourQuestionCovers(db, k, x.app, x.hour); }
    if k in db.cells {
      assert k in ks;
      assert ks == {k};
      SumOne(db.cells, k);
    } else {
      assert ks == {};
    }
  }

  lemma HourQuestionMeasures(db: Db, k: Cell)
    requires Clean(db) && Eligible(db, k) && k.hour % HOUR == 0
    ensures CoveredIds(db, HourQuestion(k.app, k.hour, k.name), NullIf(k.device), k.bucket) == LeftToCell(db, k)
  {
    var q := HourQuestion(k.app, k.hour, k.name);
    var covered := CoveredIds(db, q, NullIf(k.device), k.bucket);
    assert ConditionsOf(q.filters) == [];
    forall id | id in LeftToCell(db, k) ensures id in covered {
      HourQuestionCovers(db, k, k.app, k.hour);
      CellSpeaksForMeasure(db, q, db.metrics[id]);
    }
    forall id | id in covered ensures id in LeftToCell(db, k) {
      HourQuestionCovers(db, k, db.metrics[id].app, HourOf(db.metrics[id].ts));
      CellSpeaksForMeasure(db, q, db.metrics[id]);
    }
  }

  /** A cell that miscounts its measures is enough for a one-hour ranking to be wrong. */
  lemma UnsoundMisreads(db: Db, k: Cell)
    requires AlignedCells(db) && Clean(db) && Eligible(db, k) && k.hour % HOUR == 0
    requires Observed(db, k) != |LeftToCell(db, k)|
    ensures var q := HourQuestion(k.app, k.hour, k.name);
            HybridCount(db, q, NullIf(k.device), k.bucket) != RawCount(db, q, NullIf(k.device), k.bucket)
  {
    var q := HourQuestion(k.app, k.hour, k.name);
    HourQuestionCells(db, k);
    HourQuestionMeasures(db, k);
    BranchesPartition(db, q, NullIf(k.device), k.bucket);
  }

  /** So is a device written as the empty string: the aggregate serves it as unknown. */
  lemma BlankDeviceMisreads(db: Db, id: nat)
    requires id in db.metrics && id <= Wid(db) && !IsBot(db, db.metrics[id])
    requires Eligible(db, CellOf(db, db.metrics[id])) && DeviceOf(db, db.metrics[id]) == Some("")
    ensures var m := db.metrics[id];
            var q := HourQuestion(m.app, HourOf(m.ts), m.name);
            HybridCount(db, q, Some(""), m.bucket) < RawCount(db, q, Some(""), m.bucket)
  {
    var m := db.metrics[id];
    var q := HourQuestion(m.app, HourOf(m.ts), m.name);
    BlankGroupHasNoCell(db, q, m.bucket);
    BlankIsCovered(db, id, m, q);
    BranchesPartition(db, q, Some(""), m.bucket);
    SubsetSize({id}, CoveredIds(db, q, Some(""), m.bucket));
  }

  /** The aggregate writes no device and the empty one alike, and reads both as none. */
  lemma BlankGroupHasNoCell(db: Db, q: Question, b: nat)
    requires q.byDevice
    ensures AggregateCount(db, q, Some(""), b) == 0
  {
    assert CellsOf(db, q, Some(""), b) == {};
  }

  lemma BlankIsCovered(db: Db, id: nat, m: Metric, q: Question)
    requires id in db.metrics && m == db.metrics[id] && id <= Wid(db) && !IsBot(db, m)
    requires Eligible(db, CellOf(db, m)) && DeviceOf(db, m) == Some("") && q == HourQuestion(m.app, HourOf(m.ts), m.name)
    ensures id in CoveredIds(db, q, Some(""), m.bucket)
  {
    HourQuestionCovers(db, CellOf(db, m), m.app, HourOf(m.ts));
    SegmentIsEnough(db, q.filters, m);
  }

  ghost predicate AlwaysExact(db: Db) {
    forall q, g, b :: Answerable(q) && Decided(q.filters) ==> HybridCount(db, q, g, b) == RawCount(db, q, g, b)
  }

  /** Every query the capacity check lets through is answered exactly if and only if the cells are sound. */
  lemma HybridExact(db: Db)
    requires AlignedCells(db)
    ensures AlwaysExact(db) <==> Sound(db) && Clean(db)
  {
    if Sound(db) && Clean(db) {
      forall q, g, b | Answerable(q) && Decided(q.filters)
        ensures HybridCount(db, q, g, b) == RawCount(db, q, g, b)
      {
        HybridEqualsRaw(db, q, g, b);
      }
    } else if !Clean(db) {
      var id :| id in db.metrics && id <= Wid(db) && !IsBot(db, db.metrics[id])
                && Eligible(db, CellOf(db, db.metrics[id])) && DeviceOf(db, db.metrics[id]) == Some("");
      BlankDeviceMisreads(db, id);
    } else {
      var k :| Eligible(db, k) && Observed(db, k) != |LeftToCell(db, k)|;
      UnsoundMisreads(db, k);
    }
  }

  // ------------------------------------------------------------------ the conditions outside the segment

  /** One measure, received after the last refresh, of a session on `device`. */
  function OneMeasure(dims: map<string, string>, device: Option<string>): Db {
    Db(map[1 := Metric("a", Some("s"), "LCP", 0, 0, dims)], map["s" := Session("a", device, false, 0)], map[], {}, None)
  }

  /** A query of the whole hour of that measure, under filters `f`. */
  function OneMeasureQuestion(f: Filters): Question {
    Question(Only({"a"}), 0, HOUR, "LCP", false, f)
  }

  /** One measure that passes the segment and fails another condition: only the raw read leaves it out. */
  lemma IgnoredConditionMisreads(f: Filters, device: Option<string>, dims: map<string, string>, c: Condition)
    requires Answerable(OneMeasureQuestion(f))
    requires AllPass(f.segments, device, dims) && c in Dedicated(f) && !Passes(c, DimensionIn(device, dims, c.dimension))
    ensures var db, q := OneMeasure(dims, device), OneMeasureQuestion(f);
            RawCount(db, q, None, 0) == 0 && HybridCount(db, q, None, 0) > 0
  {
    var db, q := OneMeasure(dims, device), OneMeasureQuestion(f);
    OneMeasureInBrut(f, device, dims);
    OneMeasureNotRaw(f, device, dims, c);
    SubsetSize({1}, BrutIds(db, q, None, 0));
  }

  lemma OneMeasureInBrut(f: Filters, device: Option<string>, dims: map<string, string>)
    requires Answerable(OneMeasureQuestion(f)) && AllPass(f.segments, device, dims)
    ensures 1 in BrutIds(OneMeasure(dims, device), OneMeasureQuestion(f), None, 0)
  {
  }

  lemma OneMeasureNotRaw(f: Filters, device: Option<string>, dims: map<string, string>, c: Condition)
    requires c in ConditionsOf(f) && !Passes(c, DimensionIn(device, dims, c.dimension))
    ensures RawIds(OneMeasure(dims, device), OneMeasureQuestion(f), None, 0) == {}
  {
    var db := OneMeasure(dims, device);
    assert !PassesAll(db, db.metrics[1], ConditionsOf(f));
  }

  lemma OneMeasureIsSound(dims: map<string, string>, device: Option<string>)
    ensures Sound(OneMeasure(dims, device)) && Clean(OneMeasure(dims, device))
  {
  }

  ghost predicate ExactUnder(f: Filters) {
    forall db, q, g, b :: OfFilters(q, f) && Sound(db) && Clean(db) ==> HybridCount(db, q, g, b) == RawCount(db, q, g, b)
  }

  predicate OfFilters(q: Question, f: Filters) {
    q.filters == f
  }

  /**
   The capacity check and the statement both look at the segment alone. Whatever the tables hold, a query
   is answered as its raw read if and only if its segment clashes or holds its other conditions.
   */
  lemma DedicatedConditionsAreIgnored(f: Filters)
    requires Answerable(OneMeasureQuestion(f))
    ensures ExactUnder(f) <==> Decided(f)
  {
    if Decided(f) {
      forall db, q, g, b | OfFilters(q, f) && Sound(db) && Clean(db)
        ensures HybridCount(db, q, g, b) == RawCount(db, q, g, b)
      {
        HybridEqualsRaw(db, q, g, b);
      }
    } else {
      DedicatedAreEqualities(f);
      var c :| c in Dedicated(f) && c !in f.segments;
      var device, dims := Escapes(f.segments, c.dimension, c.value);
      IgnoredConditionMisreads(f, device, dims, c);
      OneMeasureIsSound(dims, device);
      assert OfFilters(OneMeasureQuestion(f), f);
    }
  }

  /**
   For filters the capacity check lets through: exact without dedicated parameter and with no device but
   one the segment asks for, or when the segment lets nothing through.
   */
  lemma ExactOnDevice(f: Filters)
    requires Answerable(OneMeasureQuestion(f))
    ensures ExactUnder(f) <==>
              || Contradictory(f.segments)
              || ((forall d :: d in PARAM_DIMENSIONS ==> d !in f.params)
                  && (f.device.Some? ==> Eq("device", f.device.value) in f.segments))
  {
    DedicatedConditionsAreIgnored(f);
    DecidedOnDevice(f);
  }
}
