/**
 The paginated journal: pages cut by the (instant, key) of the last row of the page before, and the
 fingerprint that decides whether a cursor still belongs to the query it is sent with.
 */
module Journal {
  import opened Basics
  import opened Sorting
  import opened QueryContract
  import opened Conditions
  import opened ExplorerRegistry
  import opened ExplorerAst

  /** A row of the journal; the key is any totally ordered column. */
  datatype Row = Row(ts: int, key: int)

  /** `(ts, row_key) < (cursor)`. */
  predicate Below(r: Row, c: Row) {
    r.ts < c.ts || (r.ts == c.ts && r.key < c.key)
  }

  /** `order by ts desc, row_key desc`. */
  predicate Descending(a: Row, b: Row) {
    !Below(a, b)
  }

  predicate Passed(cursor: Option<Row>, r: Row) {
    cursor.None? || Below(r, cursor.value)
  }

  function Remaining(rows: seq<Row>, cursor: Option<Row>): (r: seq<Row>)
    ensures |r| <= |rows|
  {
    if rows == [] then []
    else if Passed(cursor, rows[0]) then [rows[0]] + Remaining(rows[1..], cursor)
    else Remaining(rows[1..], cursor)
  }

  /** `compileRows`: what is left after the cursor, most recent first, at most `limit` rows. */
  function Page(population: seq<Row>, cursor: Option<Row>, limit: nat): seq<Row> {
    var rows := Sort(Remaining(population, cursor), Descending);
    if |rows| <= limit then rows else rows[..limit]
  }

  /** A full page carries a cursor, a short one ends the journal. */
  function NextCursor(page: seq<Row>, limit: nat): Option<Row> {
    if page != [] && |page| == limit then Some(page[|page| - 1]) else None
  }

  // ------------------------------------------------------------------ sorting and filtering commute

  lemma DescendingIsPreorder()
    ensures Preorder(Descending)
  {
  }

  lemma {:induction false} RemainingIn(rows: seq<Row>, cursor: Option<Row>)
    ensures forall r :: r in Remaining(rows, cursor) <==> r in rows && Passed(cursor, r)
  {
    if rows != [] {
      RemainingIn(rows[1..], cursor);
    }
  }

  lemma {:induction false} RemainingInsert(x: Row, s: seq<Row>, cursor: Option<Row>)
    requires Sorted(s, Descending)
    ensures Remaining(Insert(x, s, Descending), cursor)
         == if Passed(cursor, x) then Insert(x, Remaining(s, cursor), Descending) else Remaining(s, cursor)
  {
    if s != [] {
      if Descending(x, s[0]) {
        assert ([x] + s)[1..] == s;
        RemainingIn(s, cursor);
        var rest := Remaining(s, cursor);
        if rest != [] {
          assert rest[0] in s;
          assert Descending(x, rest[0]);
        }
      } else {
        RemainingInsert(x, s[1..], cursor);
        var t := Insert(x, s[1..], Descending);
        assert ([s[0]] + t)[1..] == t;
        var kept := Remaining(s[1..], cursor);
        if Passed(cursor, s[0]) && Passed(cursor, x) {
          assert ([s[0]] + kept)[1..] == kept;
          assert Insert(x, [s[0]] + kept, Descending) == [s[0]] + Insert(x, kept, Descending);
        }
      }
    }
  }

  lemma {:induction false} RemainingSort(rows: seq<Row>, cursor: Option<Row>)
    ensures Sort(Remaining(rows, cursor), Descending) == Remaining(Sort(rows, Descending), cursor)
  {
    if rows != [] {
      RemainingSort(rows[1..], cursor);
      DescendingIsPreorder();
      SortSorts(rows[1..], Descending);
      RemainingInsert(rows[0], Sort(rows[1..], Descending), cursor);
      var rest := Remaining(rows[1..], cursor);
      if Passed(cursor, rows[0]) {
        assert ([rows[0]] + rest)[1..] == rest;
      }
    }
  }

  // ------------------------------------------------------------------ what a page leaves

  /** A full page moves the cursor strictly down: at least its last row is not read again. */
  lemma WalkAdvances(population: seq<Row>, cursor: Option<Row>, limit: nat)
    requires NextCursor(Page(population, cursor, limit), limit).Some?
    ensures |Remaining(population, NextCursor(Page(population, cursor, limit), limit))| < |Remaining(population, cursor)|
  {
    var page := Page(population, cursor, limit);
    var last := page[|page| - 1];
    SortMembers(Remaining(population, cursor), Descending);
    RemainingIn(population, cursor);
    assert last in Sort(Remaining(population, cursor), Descending);
    RemainingShrinks(population, cursor, last);
  }

  lemma {:induction false} RemainingShrinks(rows: seq<Row>, cursor: Option<Row>, last: Row)
    requires Passed(cursor, last)
    ensures |Remaining(rows, Some(last))| <= |Remaining(rows, cursor)|
    ensures last in rows ==> |Remaining(rows, Some(last))| < |Remaining(rows, cursor)|
  {
    if rows != [] {
      RemainingShrinks(rows[1..], cursor, last);
    }
  }

  /** In a strictly descending list, what is below a row is what follows it. */
  lemma {:induction false} RemainingIsSuffix(s: seq<Row>, i: nat)
    requires i < |s| && forall x, y :: 0 <= x < y < |s| ==> Below(s[y], s[x])
    ensures Remaining(s, Some(s[i])) == s[i + 1..]
  {
    if i == 0 {
      KeepAll(s[1..], Some(s[0]));
    } else {
      RemainingIsSuffix(s[1..], i - 1);
      assert s[1..][i..] == s[i + 1..];
    }
  }

  lemma {:induction false} KeepAll(s: seq<Row>, cursor: Option<Row>)
    requires forall r :: r in s ==> Passed(cursor, r)
    ensures Remaining(s, cursor) == s
  {
    if s != [] {
      KeepAll(s[1..], cursor);
    }
  }

  ghost predicate StrictlyDescending(s: seq<Row>) {
    forall x, y :: 0 <= x < y < |s| ==> Below(s[y], s[x])
  }

  lemma DistinctSortsStrictly(population: seq<Row>)
    requires Distinct(population)
    ensures StrictlyDescending(Sort(population, Descending))
  {
    DescendingIsPreorder();
    SortSorts(population, Descending);
    SortDistinct(population, Descending);
  }

  /** A cursor further down leaves the same rows whether or not an earlier one was applied first. */
  lemma {:induction false} RemainingTwice(rows: seq<Row>, cursor: Option<Row>, further: Row)
    requires Passed(cursor, further)
    ensures Remaining(Remaining(rows, cursor), Some(further)) == Remaining(rows, Some(further))
  {
    if rows != [] {
      RemainingTwice(rows[1..], cursor, further);
      var kept := Remaining(rows[1..], cursor);
      if Passed(cursor, rows[0]) {
        assert ([rows[0]] + kept)[1..] == kept;
      }
    }
  }

  lemma {:induction false} RemainingDistinct(rows: seq<Row>, cursor: Option<Row>)
    requires Distinct(rows)
    ensures Distinct(Remaining(rows, cursor))
  {
    if rows != [] {
      RemainingDistinct(rows[1..], cursor);
      RemainingIn(rows[1..], cursor);
      assert rows[0] !in rows[1..];
    }
  }

  /** The rows a cursor leaves, in the order of the journal. */
  function Rest(population: seq<Row>, cursor: Option<Row>): seq<Row> {
    Sort(Remaining(population, cursor), Descending)
  }

  /** What the cursor of a row leaves is what follows that row. */
  lemma RestAfter(population: seq<Row>, cursor: Option<Row>, rest: seq<Row>, i: nat)
    requires Distinct(population) && rest == Rest(population, cursor) && i < |rest|
    ensures Rest(population, Some(rest[i])) == rest[i + 1..]
  {
    var left := Remaining(population, cursor);
    RemainingDistinct(population, cursor);
    DistinctSortsStrictly(left);
    RemainingIsSuffix(rest, i);
    RemainingSort(left, Some(rest[i]));
    assert rest[i] in rest;
    SortMembers(left, Descending);
    RemainingIn(population, cursor);
    RemainingTwice(population, cursor, rest[i]);
  }

  /** A page, then what its cursor leaves, is what the cursor before it left. */
  lemma PageThenRest(population: seq<Row>, cursor: Option<Row>, limit: nat)
    requires Distinct(population) && limit >= 1
    ensures var page := Page(population, cursor, limit);
            var next := NextCursor(page, limit);
            Rest(population, cursor) == if next.None? then page else page + Rest(population, next)
  {
    var rest := Rest(population, cursor);
    if limit <= |rest| {
      RestAfter(population, cursor, rest, limit - 1);
      assert rest == rest[..limit] + rest[limit..];
    }
  }

  /** Later in time, or at the same instant under a larger key. */
  predicate Later(a: Row, b: Row) {
    a.ts > b.ts || (a.ts == b.ts && a.key > b.key)
  }

  /**
   A page shows the most recent rows that come after its cursor in the journal, each as often as the population holds
   it, in order; it leaves one out only when it is full, and then nothing shown is older.
   */
  lemma PageIsLatest(population: seq<Row>, cursor: Option<Row>, limit: nat)
    ensures var page := Page(population, cursor, limit);
            && |page| <= limit && multiset(page) <= multiset(population)
            && (forall x, y :: 0 <= x < y < |page| ==> !Later(page[y], page[x]))
            && (cursor.Some? ==> forall r :: r in page ==> Later(cursor.value, r))
            && (forall r :: r in population && r !in page && (cursor.Some? ==> Later(cursor.value, r)) ==>
                 |page| == limit && forall s :: s in page ==> !Later(r, s))
  {
    var rows, page := Sort(Remaining(population, cursor), Descending), Page(population, cursor, limit);
    RowsLeft(population, cursor, rows);
    PageOfRows(rows, limit, page);
    PageOnFields(population, cursor, limit, rows, page);
  }

  lemma RowsLeft(population: seq<Row>, cursor: Option<Row>, rows: seq<Row>)
    requires rows == Sort(Remaining(population, cursor), Descending)
    ensures Sorted(rows, Descending) && multiset(rows) <= multiset(population)
    ensures forall r :: r in rows <==> r in population && Passed(cursor, r)
  {
    var left := Remaining(population, cursor);
    DescendingIsPreorder();
    SortSorts(left, Descending);
    SortMembers(left, Descending);
    SortKeeps(left, Descending);
    RemainingIn(population, cursor);
    RemainingWithin(population, cursor);
  }

  lemma PageOfRows(rows: seq<Row>, limit: nat, page: seq<Row>)
    requires Sorted(rows, Descending) && page == if |rows| <= limit then rows else rows[..limit]
    ensures Sorted(page, Descending) && |page| <= limit && multiset(page) <= multiset(rows)
    ensures forall r :: r in page ==> r in rows
    ensures forall r, s :: r in rows && r !in page && s in page ==> |page| == limit && !Later(r, s)
    ensures forall r :: r in rows && r !in page ==> |page| == limit
  {
    if |rows| > limit {
      assert rows == rows[..limit] + rows[limit..];
      CutIsLatest(rows, limit);
    }
  }

  lemma PageOnFields(population: seq<Row>, cursor: Option<Row>, limit: nat, rows: seq<Row>, page: seq<Row>)
    requires Sorted(page, Descending) && forall r :: r in page ==> r in rows
    requires forall r :: r in rows <==> r in population && Passed(cursor, r)
    requires forall r :: r in rows && r !in page ==> |page| == limit
    requires forall r, s :: r in rows && r !in page && s in page ==> !Later(r, s)
    ensures forall x, y :: 0 <= x < y < |page| ==> !Later(page[y], page[x])
    ensures cursor.Some? ==> forall r :: r in page ==> Later(cursor.value, r)
    ensures forall r :: r in population && r !in page && (cursor.Some? ==> Later(cursor.value, r)) ==>
              |page| == limit && forall s :: s in page ==> !Later(r, s)
  {
    assert forall r :: Passed(cursor, r) <==> (cursor.Some? ==> Later(cursor.value, r));
    forall x, y | 0 <= x < y < |page| ensures !Later(page[y], page[x]) { assert Descending(page[x], page[y]); }
  }

  lemma CutIsLatest(rows: seq<Row>, limit: nat)
    requires Sorted(rows, Descending) && limit < |rows|
    ensures forall r, s :: r in rows && r !in rows[..limit] && s in rows[..limit] ==> !Later(r, s)
  {
    forall r, s | r in rows && r !in rows[..limit] && s in rows[..limit] ensures !Later(r, s) {
      var i :| 0 <= i < |rows| && rows[i] == r;
      var j :| 0 <= j < limit && rows[..limit][j] == s;
      assert forall k :: 0 <= k < limit ==> rows[..limit][k] == rows[k] && rows[k] in rows[..limit];
      assert i >= limit;
      assert Descending(rows[j], rows[i]);
    }
  }

  lemma {:induction false} RemainingWithin(rows: seq<Row>, cursor: Option<Row>)
    ensures multiset(Remaining(rows, cursor)) <= multiset(rows)
  {
    if rows != [] {
      RemainingWithin(rows[1..], cursor);
      assert rows == [rows[0]] + rows[1..];
    }
  }

  // ------------------------------------------------------------------ the walk

  ghost predicate PositiveLimits(limits: nat -> nat) {
    forall k :: limits(k) >= 1
  }

  /** The pages read one after the other, each with its own limit, until one carries no cursor. */
  ghost function Walk(population: seq<Row>, cursor: Option<Row>, limits: nat -> nat, n: nat): (r: seq<Row>)
    ensures Distinct(population) && PositiveLimits(limits) ==> r == Rest(population, cursor)
    decreases |Remaining(population, cursor)|
  {
    var limit := limits(n);
    var page := Page(population, cursor, limit);
    var next := NextCursor(page, limit);
    assert Distinct(population) && PositiveLimits(limits) ==>
        Rest(population, cursor) == if next.None? then page else page + Rest(population, next) by {
      if Distinct(population) && PositiveLimits(limits) { PageThenRest(population, cursor, limit); }
    }
    if next.None? then page
    else
      WalkAdvances(population, cursor, limit);
      page + Walk(population, next, limits, n + 1)
  }

  /** Pagination is exact: every row once, in the order of the journal, whatever the page sizes. */
  lemma WalkIsComplete(population: seq<Row>, limits: nat -> nat)
    requires Distinct(population) && PositiveLimits(limits)
    ensures Walk(population, None, limits, 0) == Sort(population, Descending)
    ensures multiset(Walk(population, None, limits, 0)) == multiset(population)
    ensures var w := Walk(population, None, limits, 0);
            forall x, y :: 0 <= x < y < |w| ==> w[x].ts > w[y].ts || (w[x].ts == w[y].ts && w[x].key > w[y].key)
  {
    KeepAll(population, None);
    DistinctSortsStrictly(population);
    SortKeeps(population, Descending);
  }

  // ------------------------------------------------------------------ and only then

  function OneByOne(n: nat): nat {
    1
  }

  lemma HeadDescends(first: Row, rest: seq<Row>)
    requires StrictlyDescending(rest) && forall r :: r in rest ==> Below(r, first)
    ensures StrictlyDescending([first] + rest)
  {
  }

  /** Read one row at a time, the walk never comes back to an (instant, key) it has passed. */
  lemma {:induction false} OneByOneDescends(population: seq<Row>, cursor: Option<Row>, n: nat)
    ensures StrictlyDescending(Walk(population, cursor, OneByOne, n))
    ensures forall r :: r in Walk(population, cursor, OneByOne, n) ==> Passed(cursor, r)
    decreases |Remaining(population, cursor)|
  {
    var page := Page(population, cursor, 1);
    SortMembers(Remaining(population, cursor), Descending);
    RemainingIn(population, cursor);
    if page != [] {
      assert page[0] in Sort(Remaining(population, cursor), Descending);
      WalkAdvances(population, cursor, 1);
      OneByOneDescends(population, Some(page[0]), n + 1);
      var rest := Walk(population, Some(page[0]), OneByOne, n + 1);
      assert Walk(population, cursor, OneByOne, n) == [page[0]] + rest;
      HeadDescends(page[0], rest);
      forall r | r in rest ensures Passed(cursor, r) {}
    }
  }

  ghost predicate ReadsAll(population: seq<Row>) {
    forall limits: nat -> nat :: PositiveLimits(limits) ==>
      Walk(population, None, limits, 0) == Sort(population, Descending)
  }

  /** Pagination reads everything for every choice of page sizes if and only if no two rows tie. */
  lemma PaginationExact(population: seq<Row>)
    ensures ReadsAll(population) <==> Distinct(population)
  {
    if Distinct(population) {
      forall limits: nat -> nat | PositiveLimits(limits)
        ensures Walk(population, None, limits, 0) == Sort(population, Descending)
      {
        WalkIsComplete(population, limits);
      }
    } else {
      OneByOneDescends(population, None, 0);
      SortDistinct(population, Descending);
      DescendingIsDistinct(Walk(population, None, OneByOne, 0));
    }
  }

  lemma DescendingIsDistinct(s: seq<Row>)
    requires StrictlyDescending(s)
    ensures Distinct(s)
  {
  }

  // ------------------------------------------------------------------ the cursor's fingerprint

  /** A row of a dataset, with what decides its place in a journal. */
  datatype Entry = Entry(
    app: string, hidden: bool, probe: bool, bot: bool, started: int, lastSeen: int, variant: Option<string>,
    device: Option<string>, dims: map<string, string>)

  /** The window: by the start of the row, or by its overlap for the measures that say so. */
  predicate InWindow(query: Query, overlap: bool, e: Entry) {
    if overlap then e.lastSeen >= query.from && e.started < query.to else query.from <= e.started < query.to
  }

  /** The apps of the scope; without a list, all but the probes, and but the internal ones unless asked for. */
  predicate InApps(query: Query, e: Entry) {
    if query.effectiveApps.Some? then e.app in query.effectiveApps.value
    else if query.filters.includeInternal then !e.probe
    else !e.hidden
  }

  /** `compilePopulation`: window, scope, robots, sub-population, and every condition of the query. */
  predicate InJournal(query: Query, plan: Plan, overlap: bool, e: Entry) {
    && InWindow(query, overlap, e) && InApps(query, e) && (query.filters.includeBots || !e.bot)
    && (plan.variant.Some? ==> e.variant == plan.variant)
    && AllPass(ConditionsOf(query.filters), e.device, e.dims)
  }

  /**
   A row is in the journal when it starts in the window (for a measure of overlap: when it lasts into it), is of an app
   asked for (without a list, of none that is a probe, nor internal unless asked for), of no robot unless asked for, of the
   sub-population, and its device and dimensions meet every condition.
   */
  lemma InJournalExactly(query: Query, plan: Plan, overlap: bool, e: Entry)
    ensures InJournal(query, plan, overlap, e) <==>
              && e.started < query.to && (if overlap then e.lastSeen >= query.from else e.started >= query.from)
              && (match query.effectiveApps
                  case Some(apps) => e.app in apps
                  case None => if query.filters.includeInternal then !e.probe else !e.hidden)
              && (e.bot ==> query.filters.includeBots) && (plan.variant == None || plan.variant == e.variant)
              && (forall c :: c in ConditionsOf(query.filters) ==>
                   var v := if c.dimension == "device" then e.device else if c.dimension in e.dims then Some(e.dims[c.dimension]) else None;
                   match c
                   case Eq(_, x) => v == Some(x)
                   case Neq(_, x) => v.Some? && v != Some(x)
                   case IsNull(_) => v == None)
  {
  }

  /** The sessions carry what describes a visitor; views, events, measures and the like add their page, release and environment; only what a server declares has a service. */
  lemma CarriesExactly(dataset: string, dimension: string)
    ensures Carries(dataset, dimension) <==>
              || dimension == "device" || dimension == "country" || dimension == "country_source" || dimension == "client"
              || dimension == "source" || dimension == "browser" || dimension == "os" || dimension == "runtime"
              || dimension == "browser_version" || dimension == "os_version" || dimension == "net_type"
              || (dataset != "sessions" && (dimension == "route" || dimension == "release" || dimension == "env"))
              || ((dataset == "errors" || dataset == "spans") && dimension == "service")
  {
  }

  /** What a session carries, and what a row of its own adds to it. */
  const OF_SESSIONS: seq<string> := [
    "device", "country", "country_source", "client", "source", "browser", "os", "runtime", "browser_version", "os_version",
    "net_type"]
  const OF_ROWS: seq<string> := ["route", "release", "env"]

  predicate Carries(dataset: string, dimension: string) {
    || dimension in OF_SESSIONS
    || (dataset != "sessions" && dimension in OF_ROWS)
    || (dataset in ["errors", "spans"] && dimension == "service")
  }

  /** A condition or a grouping on a dimension the dataset does not carry, or whose column is not there yet, is refused. */
  predicate Refused(present: set<string>, query: Query, plan: Plan) {
    || (exists c :: c in ConditionsOf(query.filters) && !(Carries(plan.dataset, c.dimension) && c.dimension in present))
    || (exists d :: d in plan.groupBy && !(Carries(plan.dataset, d) && d in present))
  }

  ghost predicate SameRows(q: Query, p: Plan, overlap: bool, q': Query, p': Plan, overlap': bool) {
    forall e: Entry :: e.started <= e.lastSeen ==> (InJournal(q, p, overlap, e) <==> InJournal(q', p', overlap', e))
  }

  /** Both are refused, or neither is and they read the same rows of every table. */
  ghost predicate SameJournal(present: set<string>, q: Query, p: Plan, overlap: bool, q': Query, p': Plan, overlap': bool) {
    && (Refused(present, q, p) <==> Refused(present, q', p'))
    && (!Refused(present, q, p) ==> SameRows(q, p, overlap, q', p', overlap'))
  }

  /** A query that is not empty from the start: a window, and an app at least. */
  predicate Proper(query: Query) {
    query.from < query.to && query.effectiveApps != Some([])
  }

  /** A row of the scope and the sub-population, of no robot, with chosen instants and dimensions. */
  function Sample(query: Query, plan: Plan, started: int, lastSeen: int, device: Option<string>, dims: map<string, string>): Entry
    requires Proper(query)
  {
    Entry(if query.effectiveApps.Some? then query.effectiveApps.value[0] else "", false, false, false,
          started, lastSeen, plan.variant, device, dims)
  }

  lemma SampleIsRead(q: Query, p: Plan, q': Query, p': Plan, overlap: bool, e: Entry)
    requires Proper(q) && ExplorerFingerprint(q', p') == ExplorerFingerprint(q, p)
    requires e == Sample(q, p, e.started, e.lastSeen, e.device, e.dims)
    ensures InJournal(q', p', overlap, e) <==> InWindow(q, overlap, e) && AllPass(ConditionsOf(q'.filters), e.device, e.dims)
  {
    if q.effectiveApps.Some? { assert e.app in q.effectiveApps.value; }
  }

  lemma SameRowsExactly(q: Query, p: Plan, overlap: bool, q': Query, p': Plan, overlap': bool)
    requires Proper(q) && ExplorerFingerprint(q', p') == ExplorerFingerprint(q, p)
    ensures SameRows(q, p, overlap, q', p', overlap') <==>
              && SameConditions(q.filters, q'.filters)
              && (overlap == overlap' || Contradictory(ConditionsOf(q.filters)))
  {
    SameAnswersExactly(q.filters, q'.filters);
    if SameConditions(q.filters, q'.filters) {
      if overlap != overlap' {
        if Contradictory(ConditionsOf(q.filters)) {
          forall e: Entry ensures !AllPass(ConditionsOf(q.filters), e.device, e.dims) {
            ContradictoryPassesNone(ConditionsOf(q.filters), e.device, e.dims);
          }
        } else {
          OverlapDiffers(q, p, overlap, q', p', overlap');
        }
      }
    } else {
      ConditionsDiffer(q, p, overlap, q', p', overlap');
    }
  }

  /**
   The fingerprint leaves out the measure, the grouping, and the conditions that are not in the segment.
   Two plans whose cursors are exchanged read the same journal, on every table, if and only if both are
   refused, or neither is, each query holds the other's device and parameters, and the measures bound rows
   alike (or no row can pass).
   */
  lemma CursorKeepsJournal(present: set<string>, q: Query, p: Plan, overlap: bool, q': Query, p': Plan, overlap': bool)
    requires Proper(q) && ExplorerFingerprint(q', p') == ExplorerFingerprint(q, p)
    ensures SameJournal(present, q, p, overlap, q', p', overlap') <==>
              && (Refused(present, q, p) <==> Refused(present, q', p'))
              && (|| Refused(present, q, p)
                  || (SameConditions(q.filters, q'.filters) && (overlap == overlap' || Contradictory(ConditionsOf(q.filters)))))
  {
    SameRowsExactly(q, p, overlap, q', p', overlap');
  }

  /** A row that started before the window and is seen in it tells the two windows apart. */
  lemma OverlapDiffers(q: Query, p: Plan, overlap: bool, q': Query, p': Plan, overlap': bool)
    requires Proper(q) && ExplorerFingerprint(q', p') == ExplorerFingerprint(q, p) && overlap != overlap'
    requires SameAnswers(ConditionsOf(q.filters), ConditionsOf(q'.filters)) && !Contradictory(ConditionsOf(q.filters))
    ensures !SameRows(q, p, overlap, q', p', overlap')
  {
    var cs := ConditionsOf(q.filters);
    Satisfied(cs);
    var e := Sample(q, p, q.from - 1, q.from, Solve(cs, "device"), Solution(cs));
    SampleIsRead(q, p, q, p, overlap, e);
    SampleIsRead(q, p, q', p', overlap', e);
    assert InJournal(q, p, overlap, e) != InJournal(q', p', overlap', e);
  }

  /** A row of the window that only one of the two lets through tells them apart. */
  lemma ConditionsDiffer(q: Query, p: Plan, overlap: bool, q': Query, p': Plan, overlap': bool)
    requires Proper(q) && ExplorerFingerprint(q', p') == ExplorerFingerprint(q, p)
    requires !SameAnswers(ConditionsOf(q.filters), ConditionsOf(q'.filters))
    ensures !SameRows(q, p, overlap, q', p', overlap')
  {
    var device, dims :| AllPass(ConditionsOf(q.filters), device, dims) != AllPass(ConditionsOf(q'.filters), device, dims);
    var e := Sample(q, p, q.from, q.from, device, dims);
    SampleIsRead(q, p, q, p, overlap, e);
    SampleIsRead(q, p, q', p', overlap', e);
    assert InJournal(q, p, overlap, e) != InJournal(q', p', overlap', e);
  }

  function SessionsSource(measure: string): PlanSource {
    PlanSource(Some(Str("sessions")), Some(Obj(map["aggregation" := Str("count"), "field" := Str(measure)])),
               None, Some(Str("table")), None, None)
  }

  function SessionsPlan(measure: string): Plan {
    Plan("sessions", "count", measure, None, None, [], "table", DEFAULT_ROWS, None)
  }

  lemma SessionsPlanParses(measure: string, query: Query)
    requires measure in ["started", "active"]
    ensures ParsePlan(EXPLORER_DATASETS, SessionsSource(measure), Some(query)) == Ok(SessionsPlan(measure))
  {
    SessionFields();
    SessionMeasure(measure);
  }

  lemma SessionFields()
    ensures "sessions" in EXPLORER_DATASETS
    ensures var d := EXPLORER_DATASETS["sessions"];
            && d.axis.None? && "started" in d.fields && "active" in d.fields
            && d.fields["started"] == COUNTED && d.fields["active"] == Field(ExplorerRegistry.Rows, COUNT, None, true, false)
  {
  }

  lemma SessionMeasure(measure: string)
    requires measure in ["started", "active"]
    ensures var d := EXPLORER_DATASETS["sessions"];
            ParseMeasure(d, SessionsSource(measure).measure) == Ok(Measure("count", measure, None, d.fields[measure]))
  {
    SessionFields();
    var o := map["aggregation" := Str("count"), "field" := Str(measure)];
    assert Get(o, "aggregation") == Some(Str("count")) && Get(o, "field") == Some(Str(measure)) && Get(o, "property") == None;
    assert o.Keys <= {"aggregation", "field", "property"};
  }

  /** A cursor of the sessions started in the window pages the sessions active in it, a different population. */
  lemma CursorCrossesMeasures(present: set<string>, query: Query, ts: int, key: int)
    requires Proper(query) && !Contradictory(ConditionsOf(query.filters)) && !Refused(present, query, SessionsPlan("started"))
    ensures var c := Cursor(ExplorerFingerprint(query, SessionsPlan("started")), ts, key);
            && ParseExplorerPlan(EXPLORER_DATASETS, SessionsSource("started"), Decoded(c), Some(query)).Ok?
            && ParseExplorerPlan(EXPLORER_DATASETS, SessionsSource("active"), Decoded(c), Some(query)).Ok?
    ensures var fields := EXPLORER_DATASETS["sessions"].fields;
            !SameJournal(present, query, SessionsPlan("started"), fields["started"].overlap,
                         query, SessionsPlan("active"), fields["active"].overlap)
  {
    var c := Cursor(ExplorerFingerprint(query, SessionsPlan("started")), ts, key);
    SessionsPlanParses("started", query);
    SessionsPlanParses("active", query);
    CursorAccepted(SessionsSource("started"), SessionsPlan("started"), query, c);
    CursorAccepted(SessionsSource("active"), SessionsPlan("active"), query, c);
    SessionFields();
    MeasuresDiffer(present, query);
  }

  /** A cursor is accepted on its fingerprint alone. */
  lemma CursorAccepted(source: PlanSource, plan: Plan, query: Query, c: Cursor)
    requires ParsePlan(EXPLORER_DATASETS, source, Some(query)) == Ok(plan) && plan.visualization == "table"
    requires c.fingerprint == ExplorerFingerprint(query, plan)
    ensures ParseExplorerPlan(EXPLORER_DATASETS, source, Decoded(c), Some(query)).Ok?
  {
  }

  lemma MeasuresDiffer(present: set<string>, query: Query)
    requires Proper(query) && !Contradictory(ConditionsOf(query.filters)) && !Refused(present, query, SessionsPlan("started"))
    ensures !SameJournal(present, query, SessionsPlan("started"), false, query, SessionsPlan("active"), true)
  {
    SameRowsExactly(query, SessionsPlan("started"), false, query, SessionsPlan("active"), true);
  }

  /** The query of an address that asks for one release. */
  function OfRelease(query: Query, release: string): Query {
    query.(filters := Filters(None, map["release" := release], false, false, []))
  }

  const VIEWS_SOURCE := PlanSource(Some(Str("views")), Some(Obj(map["aggregation" := Str("count"), "field" := Str("rows")])),
                                   None, Some(Str("table")), None, None)

  const VIEWS_PLAN := Plan("views", "count", "rows", None, None, [], "table", DEFAULT_ROWS, None)

  lemma ViewsPlanParses(query: Query)
    ensures ParsePlan(EXPLORER_DATASETS, VIEWS_SOURCE, Some(query)) == Ok(VIEWS_PLAN)
  {
    ViewsMeasure(EXPLORER_DATASETS["views"]);
  }

  lemma ViewsMeasure(d: Dataset)
    requires d == EXPLORER_DATASETS["views"]
    ensures d.axis.None? && ParseMeasure(d, VIEWS_SOURCE.measure) == Ok(Measure("count", "rows", None, COUNTED))
  {
    assert "rows" in d.fields && d.fields["rows"] == COUNTED;
    var o := map["aggregation" := Str("count"), "field" := Str("rows")];
    assert Get(o, "aggregation") == Some(Str("count")) && Get(o, "field") == Some(Str("rows")) && Get(o, "property") == None;
    assert o.Keys <= {"aggregation", "field", "property"};
  }

  /** A cursor of the pages viewed under one release pages those of another, though both queries are read. */
  lemma CursorCrossesReleases(present: set<string>, query: Query, ts: int, key: int)
    requires Proper(query) && "release" in present
    ensures var before, after := OfRelease(query, "1.4"), OfRelease(query, "1.5");
            var c := Cursor(ExplorerFingerprint(before, VIEWS_PLAN), ts, key);
            && ParseExplorerPlan(EXPLORER_DATASETS, VIEWS_SOURCE, Decoded(c), Some(after)).Ok?
            && !Refused(present, before, VIEWS_PLAN) && !Refused(present, after, VIEWS_PLAN)
            && !SameJournal(present, before, VIEWS_PLAN, false, after, VIEWS_PLAN, false)
  {
    var before, after := OfRelease(query, "1.4"), OfRelease(query, "1.5");
    ViewsPlanParses(after);
    ReleaseIsRead(present, before, "1.4");
    ReleaseIsRead(present, after, "1.5");
    ReleasesDiffer(query, before, after);
    assert ExplorerFingerprint(after, VIEWS_PLAN) == ExplorerFingerprint(before, VIEWS_PLAN);
    CursorAccepted(VIEWS_SOURCE, VIEWS_PLAN, after, Cursor(ExplorerFingerprint(before, VIEWS_PLAN), ts, key));
  }

  lemma ReleaseIsRead(present: set<string>, query: Query, release: string)
    requires "release" in present && query.filters == Filters(None, map["release" := release], false, false, [])
    ensures !Refused(present, query, VIEWS_PLAN)
  {
    ReleaseCondition(query.filters, release);
    assert OF_ROWS[1] == "release";
  }

  lemma ReleasesDiffer(query: Query, before: Query, after: Query)
    requires Proper(query) && before == OfRelease(query, "1.4") && after == OfRelease(query, "1.5")
    ensures !SameRows(before, VIEWS_PLAN, false, after, VIEWS_PLAN, false)
  {
    ReleaseCondition(before.filters, "1.4");
    ReleaseCondition(after.filters, "1.5");
    assert Eq("release", "1.5") in Dedicated(after.filters) && Eq("release", "1.5") !in ConditionsOf(before.filters);
    SameRowsExactly(before, VIEWS_PLAN, false, after, VIEWS_PLAN, false);
  }

  lemma ReleaseCondition(f: Filters, release: string)
    requires f == Filters(None, map["release" := release], false, false, [])
    ensures ConditionsOf(f) == Dedicated(f) == [Eq("release", release)]
    ensures !Contradictory(ConditionsOf(f))
  {
    var names := PARAM_DIMENSIONS;
    NoneOfParams(f.params, names[..4]);
    NoneOfParams(f.params, names[5..]);
    assert names == names[..4] + (["release"] + names[5..]);
    ParamConditionsAppend(f.params, names[..4], ["release"] + names[5..]);
    assert (["release"] + names[5..])[1..] == names[5..];
  }

  lemma {:induction false} NoneOfParams(params: map<string, string>, names: seq<string>)
    requires forall d :: d in names ==> d !in params
    ensures ParamConditions(params, names) == []
  {
    if names != [] { NoneOfParams(params, names[1..]); }
  }

  lemma {:induction false} ParamConditionsAppend(params: map<string, string>, a: seq<string>, b: seq<string>)
    ensures ParamConditions(params, a + b) == ParamConditions(params, a) + ParamConditions(params, b)
  {
    if a == [] {
      assert a + b == b;
    } else {
      assert (a + b)[1..] == a[1..] + b;
      ParamConditionsAppend(params, a[1..], b);
    }
  }
}
