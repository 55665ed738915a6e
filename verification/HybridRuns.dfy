/**
 What every maintenance step does to the reads. Each step has a guard, checked on the tables before the
 step, that says exactly when every query is still answered as its raw read after it.
 */
module HybridRuns {
  import opened Basics
  import opened QueryContract
  import opened Conditions
  import opened RumTables
  import opened HybridRead

  // ------------------------------------------------------------------ tables PostgreSQL can hold

  /** `rum_metric.session_id` references `rum_session`. */
  ghost predicate ForeignKey(db: Db) {
    forall id :: id in db.metrics && db.metrics[id].session.Some? ==> db.metrics[id].session.value in db.sessions
  }

  /** Whole hours in the aggregate, no device written as the empty string, and the foreign key. */
  ghost predicate Tables(db: Db) {
    AlignedCells(db) && NoBlankDevice(db) && ForeignKey(db)
  }

  /** On such tables the reads are exact if and only if every eligible cell counts what is left to it. */
  lemma ExactIsSound(db: Db)
    requires Tables(db)
    ensures AlwaysExact(db) <==> Sound(db)
  {
    HybridExact(db);
  }

  // ------------------------------------------------------------------ one measure changes

  predicate SameAggregate(db: Db, db': Db) {
    db'.cells == db.cells && db'.marks == db.marks && db'.state == db.state
  }

  /** The cell that answers for a measure, if the reads leave it to one. */
  ghost function Share(db: Db, id: nat, m: Metric): Option<Cell> {
    if id <= Wid(db) && !IsBot(db, m) && Eligible(db, CellOf(db, m)) then Some(CellOf(db, m)) else None
  }

  ghost function ShareOf(db: Db, id: nat): Option<Cell> {
    if id in db.metrics then Share(db, id, db.metrics[id]) else None
  }

  /** A measure of the watermark's hour, or later, is read from its row. */
  lemma OpenHourHasNoShare(db: Db, id: nat, m: Metric)
    requires m.ts >= HourOf(RefreshedAt(db))
    ensures Share(db, id, m) == None
  {
    if HourOf(m.ts) < HourOf(RefreshedAt(db)) {
      HoursApart(HourOf(m.ts), HourOf(RefreshedAt(db)));
    }
  }

  lemma LeftIsShare(db: Db, k: Cell, id: nat)
    requires Eligible(db, k)
    ensures id in LeftToCell(db, k) <==> ShareOf(db, id) == Some(k)
  {
  }

  lemma SameEligible(db: Db, db': Db, k: Cell)
    requires SameAggregate(db, db')
    ensures Eligible(db', k) <==> Eligible(db, k)
  {
  }

  /** Steps that leave the aggregate alone keep the reads when no measure changes cells. */
  lemma SharesKeep(db: Db, db': Db)
    requires Sound(db) && SameAggregate(db, db')
    requires forall id :: ShareOf(db', id) == ShareOf(db, id)
    ensures Sound(db')
  {
    forall k | Eligible(db', k) ensures Observed(db', k) == |LeftToCell(db', k)| {
      SameEligible(db, db', k);
      forall id ensures id in LeftToCell(db', k) <==> id in LeftToCell(db, k) {
        LeftIsShare(db, k, id);
        LeftIsShare(db', k, id);
      }
      assert LeftToCell(db', k) == LeftToCell(db, k);
    }
  }

  /** An eligible cell that only loses measures, or only gains some, no longer counts them. */
  lemma CellMovedBreaks(db: Db, db': Db, k: Cell, id: nat)
    requires Sound(db) && SameAggregate(db, db') && Eligible(db, k)
    requires LeftToCell(db', k) <= LeftToCell(db, k) || LeftToCell(db, k) <= LeftToCell(db', k)
    requires (id in LeftToCell(db', k)) != (id in LeftToCell(db, k))
    ensures !Sound(db')
  {
    SameEligible(db, db', k);
    if LeftToCell(db', k) <= LeftToCell(db, k) {
      SubsetSize(LeftToCell(db', k), LeftToCell(db, k));
    } else {
      SubsetSize(LeftToCell(db, k), LeftToCell(db', k));
    }
    assert Observed(db', k) == Observed(db, k);
  }

  /** Changing one measure keeps the reads exactly when the measure stays in its eligible cell, or out of any. */
  lemma OneMeasureStep(db: Db, db': Db, id: nat)
    requires Sound(db) && SameAggregate(db, db')
    requires forall x :: x != id ==> ShareOf(db', x) == ShareOf(db, x)
    ensures Sound(db') <==> ShareOf(db', id) == ShareOf(db, id)
  {
    var before, after := ShareOf(db, id), ShareOf(db', id);
    if after == before {
      SharesKeep(db, db');
    } else {
      var k := if before.Some? then before.value else after.value;
      SameEligible(db, db', k);
      forall x ensures x != id ==> (x in LeftToCell(db', k) <==> x in LeftToCell(db, k)) {
        LeftIsShare(db, k, x);
        LeftIsShare(db', k, x);
      }
      LeftIsShare(db, k, id);
      LeftIsShare(db', k, id);
      CellMovedBreaks(db, db', k, id);
    }
  }

  // ------------------------------------------------------------------ ingestion

  lemma SameShare(db: Db, db': Db, id: nat)
    requires SameAggregate(db, db')
    requires id in db.metrics <==> id in db'.metrics
    requires id in db.metrics ==> db'.metrics[id] == db.metrics[id]
    requires id in db.metrics ==> SessionOf(db', db.metrics[id]) == SessionOf(db, db.metrics[id])
    ensures ShareOf(db', id) == ShareOf(db, id)
  {
    if id in db.metrics {
      SameEligible(db, db', CellOf(db, db.metrics[id]));
    }
  }

  /** A new measure keeps the reads unless it slips under the identifier watermark into an eligible cell. */
  lemma InsertKeeps(db: Db, id: nat, m: Metric)
    requires Sound(db) && id !in db.metrics
    ensures Sound(InsertMetric(db, id, m)) <==> Share(db, id, m) == None
    ensures id > Wid(db) || m.ts >= HourOf(RefreshedAt(db)) ==> Share(db, id, m) == None
  {
    var db' := InsertMetric(db, id, m);
    forall x | x != id ensures ShareOf(db', x) == ShareOf(db, x) { SameShare(db, db', x); }
    assert Share(db', id, m) == Share(db, id, m) by { SameEligible(db, db', CellOf(db, m)); }
    OneMeasureStep(db, db', id);
    if m.ts >= HourOf(RefreshedAt(db)) { OpenHourHasNoShare(db, id, m); }
  }

  /** The measure as a larger report rewrites it. */
  function Raised(m: Metric, bucket: nat, ts: int): Metric {
    m.(bucket := bucket, ts := ts)
  }

  /** A larger report keeps the reads exactly when it leaves the measure in its eligible cell, or out of any. */
  lemma RaiseKeeps(db: Db, id: nat, bucket: nat, ts: int)
    requires Sound(db) && id in db.metrics
    ensures Sound(RaiseMetric(db, id, bucket, ts)) <==>
            Share(db, id, Raised(db.metrics[id], bucket, ts)) == Share(db, id, db.metrics[id])
    ensures db.metrics[id].ts >= HourOf(RefreshedAt(db)) && ts >= HourOf(RefreshedAt(db)) ==>
              Share(db, id, Raised(db.metrics[id], bucket, ts)) == Share(db, id, db.metrics[id])
  {
    var db' := RaiseMetric(db, id, bucket, ts);
    var m' := Raised(db.metrics[id], bucket, ts);
    forall x | x != id ensures ShareOf(db', x) == ShareOf(db, x) { SameShare(db, db', x); }
    assert Share(db', id, m') == Share(db, id, m') by { SameEligible(db, db', CellOf(db, m')); }
    OneMeasureStep(db, db', id);
    if db.metrics[id].ts >= HourOf(RefreshedAt(db)) { OpenHourHasNoShare(db, id, db.metrics[id]); }
    if ts >= HourOf(RefreshedAt(db)) { OpenHourHasNoShare(db, id, m'); }
  }

  /** The upsert fills in the device of a known session, which is no robot's. */
  predicate DeviceArrives(db: Db, sid: string, s: Session) {
    && sid in db.sessions && db.sessions[sid].app == s.app && !db.sessions[sid].bot
    && db.sessions[sid].device.None? && s.device.GetOr("") != ""
  }

  predicate OfSession(db: Db, id: nat, sid: string, app: string)
    requires id in db.metrics
  {
    db.metrics[id].session == Some(sid) && db.metrics[id].app == app
  }

  /** Some eligible cell answers for a measure whose device arrives. */
  ghost predicate SessionMoves(db: Db, sid: string, s: Session) {
    DeviceArrives(db, sid, s) && exists id :: id in db.metrics && OfSession(db, id, sid, s.app) && ShareOf(db, id).Some?
  }

  lemma UpsertOutside(db: Db, sid: string, s: Session, id: nat)
    requires ForeignKey(db) && (id in db.metrics ==> !OfSession(db, id, sid, s.app) || !DeviceArrives(db, sid, s))
    ensures ShareOf(UpsertSession(db, sid, s), id) == ShareOf(db, id)
  {
    var db' := UpsertSession(db, sid, s);
    if id in db.metrics { SameEligible(db, db', CellOf(db, db.metrics[id])); }
  }

  /** A measure whose device arrives leaves its cell, and comes into one only if it had one. */
  lemma UpsertInside(db: Db, sid: string, s: Session, id: nat)
    requires id in db.metrics && OfSession(db, id, sid, s.app) && DeviceArrives(db, sid, s)
    ensures var after := ShareOf(UpsertSession(db, sid, s), id);
            && (ShareOf(db, id).Some? ==> ShareOf(db, id).value.device == "")
            && (after.Some? ==> after.value.device != "" && ShareOf(db, id).Some?)
  {
    var m, db' := db.metrics[id], UpsertSession(db, sid, s);
    SameEligible(db, db', CellOf(db', m));
    assert Eligible(db, CellOf(db', m)) <==> Eligible(db, CellOf(db, m));
  }

  /** A late device keeps the reads exactly when no eligible cell answers for a measure of its session. */
  lemma UpsertKeeps(db: Db, sid: string, s: Session)
    requires Sound(db) && ForeignKey(db)
    ensures Sound(UpsertSession(db, sid, s)) <==> !SessionMoves(db, sid, s)
  {
    var db' := UpsertSession(db, sid, s);
    if SessionMoves(db, sid, s) {
      var id :| id in db.metrics && OfSession(db, id, sid, s.app) && ShareOf(db, id).Some?;
      UpsertBreaks(db, sid, s, id);
    } else {
      forall id ensures ShareOf(db', id) == ShareOf(db, id) {
        if id in db.metrics && OfSession(db, id, sid, s.app) && DeviceArrives(db, sid, s) {
          UpsertInside(db, sid, s, id);
        } else {
          UpsertOutside(db, sid, s, id);
        }
      }
      SharesKeep(db, db');
    }
  }

  lemma UpsertBreaks(db: Db, sid: string, s: Session, id: nat)
    requires Sound(db) && ForeignKey(db) && id in db.metrics
    requires OfSession(db, id, sid, s.app) && DeviceArrives(db, sid, s) && ShareOf(db, id).Some?
    ensures !Sound(UpsertSession(db, sid, s))
  {
    var db', k := UpsertSession(db, sid, s), ShareOf(db, id).value;
    SameEligible(db, db', k);
    UpsertInside(db, sid, s, id);
    forall x | x in LeftToCell(db', k) ensures x in LeftToCell(db, k) {
      LeftIsShare(db', k, x);
      LeftIsShare(db, k, x);
      if OfSession(db, x, sid, s.app) { UpsertInside(db, sid, s, x); } else { UpsertOutside(db, sid, s, x); }
    }
    LeftIsShare(db, k, id);
    LeftIsShare(db', k, id);
    CellMovedBreaks(db, db', k, id);
  }

  // ------------------------------------------------------------------ erasures

  /** A step that removes nothing of an hour leaves its cells and their measures as they were. */
  lemma RemovedElsewhere(db: Db, db': Db, k: Cell)
    requires db'.state == db.state
    requires forall x: Cell :: x.app == k.app && x.hour == k.hour ==>
               (x in db'.cells <==> x in db.cells) && (x in db.cells ==> db'.cells[x] == db.cells[x])
    requires (k.app, k.hour) in db'.marks <==> (k.app, k.hour) in db.marks
    requires forall id :: id in db'.metrics ==>
               && id in db.metrics && db'.metrics[id] == db.metrics[id]
               && SessionOf(db', db.metrics[id]) == SessionOf(db, db.metrics[id])
    requires forall id :: id in db.metrics && db.metrics[id].app == k.app && HourOf(db.metrics[id].ts) == k.hour ==> id in db'.metrics
    ensures Eligible(db', k) <==> Eligible(db, k)
    ensures Observed(db', k) == Observed(db, k) && LeftToCell(db', k) == LeftToCell(db, k)
  {
    TrustElsewhere(db, db', k);
    forall id ensures id in LeftToCell(db', k) <==> id in LeftToCell(db, k) {
      if id in db.metrics && CellOf(db, db.metrics[id]) == k { assert id in db'.metrics; }
    }
  }

  lemma TrustElsewhere(db: Db, db': Db, k: Cell)
    requires forall x: Cell :: x.app == k.app && x.hour == k.hour ==>
               (x in db'.cells <==> x in db.cells) && (x in db.cells ==> db'.cells[x] == db.cells[x])
    requires (k.app, k.hour) in db'.marks <==> (k.app, k.hour) in db.marks
    ensures TrustedCell(db', k) <==> TrustedCell(db, k)
  {
    if TrustedCell(db, k) {
      var w :| w in db.cells && w.app == k.app && w.hour == k.hour && w.name == k.name;
      assert w in db'.cells;
    }
    if TrustedCell(db', k) {
      var w :| w in db'.cells && w.app == k.app && w.hour == k.hour && w.name == k.name;
      assert w in db.cells;
    }
  }

  /** Erasing a session marks every hour it takes measures from: the read leaves those to the raw rows. */
  lemma EraseSessionKeeps(db: Db, sid: string)
    requires Sound(db)
    ensures Sound(EraseSession(db, sid))
  {
    var db' := EraseSession(db, sid);
    forall k | Eligible(db', k) ensures Observed(db', k) == |LeftToCell(db', k)| {
      assert (k.app, k.hour) !in db'.marks;
      forall id | id in db.metrics && db.metrics[id].app == k.app && HourOf(db.metrics[id].ts) == k.hour
        ensures db.metrics[id].session != Some(sid)
      {
      }
      RemovedElsewhere(db, db', k);
    }
  }

  lemma PurgeAppKeeps(db: Db, app: string, cutoff: int, free: set<string>)
    requires Sound(db)
    ensures Sound(PurgeApp(db, app, cutoff, free))
  {
    var db' := PurgeApp(db, app, cutoff, free);
    forall k | Eligible(db', k) ensures Observed(db', k) == |LeftToCell(db', k)| {
      var w :| w in db'.cells && w.app == k.app && w.hour == k.hour && w.name == k.name;
      assert !(k.app == app && k.hour < cutoff);
      forall id | id in db'.metrics ensures SessionOf(db', db.metrics[id]) == SessionOf(db, db.metrics[id]) {
        PurgeKeepsSession(db, app, cutoff, free, id);
      }
      RemovedElsewhere(db, db', k);
    }
  }

  /** A session that a kept measure holds is kept. */
  lemma PurgeKeepsSession(db: Db, app: string, cutoff: int, free: set<string>, id: nat)
    requires id in PurgeApp(db, app, cutoff, free).metrics
    ensures SessionOf(PurgeApp(db, app, cutoff, free), db.metrics[id]) == SessionOf(db, db.metrics[id])
  {
    var db' := PurgeApp(db, app, cutoff, free);
    assert db'.metrics[id] == db.metrics[id];
  }

  lemma EraseAppKeeps(db: Db, app: string)
    requires Sound(db)
    ensures Sound(EraseApp(db, app))
  {
    var db' := EraseApp(db, app);
    forall k | Eligible(db', k) ensures Observed(db', k) == |LeftToCell(db', k)| {
      var w :| w in db'.cells && w.app == k.app && w.hour == k.hour && w.name == k.name;
      assert k.app != app;
      RemovedElsewhere(db, db', k);
    }
  }

  // ------------------------------------------------------------------ the refresh

  /** The rewritten window ends at `now` and starts on a whole hour, before the hour of `now`. */
  lemma StartBeforeNow(db: Db, hours: int, now: int)
    ensures RefreshStart(db, hours, now) <= HourOf(now) <= now
  {
    var start := RefreshStart(db, hours, now);
    assert start < now - HOUR + HOUR;
    if HourOf(now) < start {
      HoursApart(HourOf(now), start);
    }
  }

  /** The window reaches every pending mark of the last 90 days: the refresh lifts them all. */
  lemma RefreshLiftsMarks(db: Db, hours: int, now: int, x: (string, int))
    requires x in db.marks && x.1 % HOUR == 0 && now - 24 * 90 * HOUR <= x.1 < now
    ensures x !in Refresh(db, hours, now).marks
  {
    OldestMarkIsOldest(db.marks, x);
    var span := now - OldestMark(db.marks);
    var h := ResumeWindow(db, hours, now);
    assert h >= (span + HOUR - 1) / HOUR + 1 || h == 24 * 90;
    assert ((span + HOUR - 1) / HOUR) * HOUR >= span;
    if x.1 < RefreshStart(db, hours, now) {
      HoursApart(x.1, RefreshStart(db, hours, now));
    }
  }

  lemma FreshCellShape(db: Db, start: int, now: int, k: Cell)
    requires start % HOUR == 0
    requires k in FreshCells(db, start, now)
    ensures start <= k.hour < now && k.name in CORE_VITALS && FreshCells(db, start, now)[k] > 0
  {
    var id :| id in Aggregated(db, start, now) && CellOf(db, db.metrics[id]) == k;
    if k.hour < start { HoursApart(k.hour, start); }
    var here := set x | x in Aggregated(db, start, now) && CellOf(db, db.metrics[x]) == k;
    assert id in here;
  }

  ghost function AggregatedAt(db: Db, start: int, now: int, k: Cell): set<nat> {
    set id | id in Aggregated(db, start, now) && CellOf(db, db.metrics[id]) == k
  }

  lemma FreshCount(db: Db, start: int, now: int, k: Cell)
    ensures k in FreshCells(db, start, now) <==> AggregatedAt(db, start, now, k) != {}
    ensures k in FreshCells(db, start, now) ==> FreshCells(db, start, now)[k] == |AggregatedAt(db, start, now, k)|
  {
    if AggregatedAt(db, start, now, k) != {} {
      var id :| id in AggregatedAt(db, start, now, k);
    }
    if k in FreshCells(db, start, now) {
      var id :| id in Aggregated(db, start, now) && CellOf(db, db.metrics[id]) == k;
      assert id in AggregatedAt(db, start, now, k);
    }
    assert AggregatedAt(db, start, now, k) == set id | id in Aggregated(db, start, now) && CellOf(db, db.metrics[id]) == k;
  }

  /** A metric believed after the refresh, in an hour of the window, is one the refresh aggregates. */
  lemma RewrittenIsVital(db: Db, hours: int, now: int, k: Cell)
    requires RefreshStart(db, hours, now) <= k.hour < now
    requires TrustedCell(Refresh(db, hours, now), k)
    ensures k.name in CORE_VITALS
  {
    var start, db' := RefreshStart(db, hours, now), Refresh(db, hours, now);
    var w :| w in db'.cells && w.app == k.app && w.hour == k.hour && w.name == k.name;
    assert w in FreshCells(db, start, now);
    FreshCellShape(db, start, now, w);
  }

  lemma RewrittenMeasures(db: Db, hours: int, now: int, k: Cell)
    requires RefreshStart(db, hours, now) <= k.hour < now && k.name in CORE_VITALS
    ensures SettledAt(Refresh(db, hours, now), k) == AggregatedAt(db, RefreshStart(db, hours, now), now, k)
  {
    var start, db' := RefreshStart(db, hours, now), Refresh(db, hours, now);
    forall id | id in db.metrics
      ensures id <= Wid(db') && CellOf(db', db.metrics[id]) == CellOf(db, db.metrics[id])
      ensures IsBot(db', db.metrics[id]) == IsBot(db, db.metrics[id])
    {
      LargestBounds(db.metrics.Keys, id);
    }
    assert RefreshedAt(db') == now && db'.metrics == db.metrics;
  }

  /** Inside the window, the cells are rewritten from the measures themselves. */
  lemma RewrittenHours(db: Db, hours: int, now: int, k: Cell)
    requires RefreshStart(db, hours, now) <= k.hour < now
    requires TrustedCell(Refresh(db, hours, now), k)
    ensures Observed(Refresh(db, hours, now), k) == |SettledAt(Refresh(db, hours, now), k)|
  {
    var start := RefreshStart(db, hours, now);
    RewrittenIsVital(db, hours, now, k);
    RewrittenMeasures(db, hours, now, k);
    FreshCount(db, start, now, k);
  }

  /** Outside the window nothing is rewritten: same cells, same trust. */
  lemma PassedHours(db: Db, hours: int, now: int, k: Cell)
    requires k.hour < RefreshStart(db, hours, now)
    ensures Observed(Refresh(db, hours, now), k) == Observed(db, k)
    ensures TrustedCell(Refresh(db, hours, now), k) <==> TrustedCell(db, k)
  {
    var start, db' := RefreshStart(db, hours, now), Refresh(db, hours, now);
    forall x: Cell | x.app == k.app && x.hour == k.hour
      ensures (x in db'.cells <==> x in db.cells) && (x in db.cells ==> db'.cells[x] == db.cells[x])
    {
      if x in FreshCells(db, start, now) { FreshCellShape(db, start, now, x); }
    }
    TrustElsewhere(db, db', k);
  }

  /** All the measures of a cell, robots excluded. */
  ghost function NonRobots(db: Db, k: Cell): set<nat> {
    set id | id in db.metrics && !IsBot(db, db.metrics[id]) && CellOf(db, db.metrics[id]) == k
  }

  /** After a refresh every measure is under the identifier watermark. */
  lemma AllUnderWatermark(db: Db, hours: int, now: int, k: Cell)
    ensures LeftToCell(Refresh(db, hours, now), k) == NonRobots(db, k)
  {
    var db' := Refresh(db, hours, now);
    forall id | id in db.metrics ensures id <= Wid(db') && CellOf(db', db.metrics[id]) == CellOf(db, db.metrics[id]) {
      LargestBounds(db.metrics.Keys, id);
    }
  }

  lemma EligibleAfterRefresh(db: Db, hours: int, now: int, k: Cell)
    requires RefreshStart(db, hours, now) <= k.hour && Eligible(Refresh(db, hours, now), k)
    ensures Observed(Refresh(db, hours, now), k) == |LeftToCell(Refresh(db, hours, now), k)|
  {
    assert RefreshedAt(Refresh(db, hours, now)) == now;
    RewrittenHours(db, hours, now, k);
    SettledIsLeftToCell(Refresh(db, hours, now), k);
  }

  /** The believed cells of hours before the window count all their measures. */
  ghost predicate OldCellsCount(db: Db, start: int) {
    forall k: Cell :: TrustedCell(db, k) && k.hour < start ==> Observed(db, k) == |NonRobots(db, k)|
  }

  /** Whatever the tables held, the reads are exact after a refresh if and only if the cells it leaves count. */
  lemma RefreshReads(db: Db, hours: int, now: int)
    ensures Sound(Refresh(db, hours, now)) <==> OldCellsCount(db, RefreshStart(db, hours, now))
  {
    var start, db' := RefreshStart(db, hours, now), Refresh(db, hours, now);
    StartBeforeNow(db, hours, now);
    assert RefreshedAt(db') == now;
    forall k: Cell | k.hour < start
      ensures Eligible(db', k) <==> TrustedCell(db, k)
      ensures Observed(db', k) == Observed(db, k) && LeftToCell(db', k) == NonRobots(db, k)
    {
      PassedHours(db, hours, now, k);
      AllUnderWatermark(db, hours, now, k);
    }
    if OldCellsCount(db, start) {
      forall k | Eligible(db', k) ensures Observed(db', k) == |LeftToCell(db', k)| {
        if start <= k.hour { EligibleAfterRefresh(db, hours, now, k); }
      }
    }
  }

  /** A measure that arrived since the last refresh, in an hour that was believed then and that the window leaves. */
  ghost predicate Late(db: Db, start: int, id: nat) {
    && id in db.metrics && id > Wid(db) && !IsBot(db, db.metrics[id])
    && HourOf(db.metrics[id].ts) < start && Eligible(db, CellOf(db, db.metrics[id]))
  }

  ghost predicate NoneLate(db: Db, start: int) {
    forall id :: !Late(db, start, id)
  }

  /** The believed cells from the hour of the last refresh to the window count all their measures. */
  ghost predicate GapCounts(db: Db, start: int) {
    forall k: Cell :: TrustedCell(db, k) && HourOf(RefreshedAt(db)) <= k.hour < start ==> Observed(db, k) == |NonRobots(db, k)|
  }

  /** A cell the reads use already counts all its measures when none is late in it. */
  lemma EligibleCounts(db: Db, start: int, k: Cell)
    requires Sound(db) && Eligible(db, k) && k.hour < start
    ensures Observed(db, k) == |NonRobots(db, k)| <==> forall id :: Late(db, start, id) ==> CellOf(db, db.metrics[id]) != k
  {
    SubsetSize(LeftToCell(db, k), NonRobots(db, k));
    if id :| id in NonRobots(db, k) && id !in LeftToCell(db, k) {
      assert Late(db, start, id);
    } else {
      assert NonRobots(db, k) == LeftToCell(db, k);
    }
    forall id | Late(db, start, id) && CellOf(db, db.metrics[id]) == k ensures id in NonRobots(db, k) && id !in LeftToCell(db, k) {}
  }

  /**
   From exact reads, a refresh keeps them exact if and only if no measure is late and the cells between the
   last refresh and the window count; the latter asks nothing of a window that reaches the last refresh.
   */
  lemma RefreshGuard(db: Db, hours: int, now: int)
    requires Sound(db)
    ensures var start := RefreshStart(db, hours, now);
            && (Sound(Refresh(db, hours, now)) <==> NoneLate(db, start) && GapCounts(db, start))
            && (start <= HourOf(RefreshedAt(db)) ==> GapCounts(db, start))
  {
    var start := RefreshStart(db, hours, now);
    RefreshReads(db, hours, now);
    forall k | Eligible(db, k) && k.hour < start
      ensures Observed(db, k) == |NonRobots(db, k)| <==> forall id :: Late(db, start, id) ==> CellOf(db, db.metrics[id]) != k
    {
      EligibleCounts(db, start, k);
    }
    assert forall id :: Late(db, start, id) ==> Eligible(db, CellOf(db, db.metrics[id]));
  }

  // ------------------------------------------------------------------ the promise of a refresh

  lemma SettledIsLeftToCell(db: Db, k: Cell)
    requires k.hour < HourOf(RefreshedAt(db))
    ensures SettledAt(db, k) == LeftToCell(db, k)
  {
    forall id | id in LeftToCell(db, k) ensures id in SettledAt(db, k) {
      HoursApart(k.hour, HourOf(RefreshedAt(db)));
    }
  }

  lemma FaithfulIsSound(db: Db)
    requires Faithful(db)
    ensures Sound(db)
  {
    forall k | Eligible(db, k) ensures Observed(db, k) == |LeftToCell(db, k)| { SettledIsLeftToCell(db, k); }
  }

  /** Tables that were never refreshed promise nothing, so they promise the truth. */
  lemma NeverRefreshed(db: Db)
    requires db.state.None? && db.cells == map[]
    ensures Faithful(db) && Sound(db)
  {
    FaithfulIsSound(db);
  }

  /**
   A measure the refresh passes by: its hour is believed and too old to be rewritten, and the cell
   does not count it, either because it arrived since, or because its hour was still open then.
   */
  ghost predicate Stranded(db: Db, start: int, id: nat) {
    && id in db.metrics && !IsBot(db, db.metrics[id])
    && HourOf(db.metrics[id].ts) < start
    && TrustedCell(db, CellOf(db, db.metrics[id]))
    && (id > Wid(db) || db.metrics[id].ts >= RefreshedAt(db))
  }

  ghost predicate NoneStranded(db: Db, hours: int, now: int) {
    forall id :: !Stranded(db, RefreshStart(db, hours, now), id)
  }

  /** What a cell the window leaves is short of: its stranded measures. */
  lemma StrandedOf(db: Db, hours: int, now: int, k: Cell)
    requires now >= RefreshedAt(db) && k.hour < RefreshStart(db, hours, now) && TrustedCell(db, k)
    ensures SettledAt(db, k) <= NonRobots(db, k)
    ensures forall id :: id in NonRobots(db, k) - SettledAt(db, k)
                         <==> Stranded(db, RefreshStart(db, hours, now), id) && CellOf(db, db.metrics[id]) == k
  {
  }

  lemma FaithfulCounts(db: Db, hours: int, now: int, k: Cell)
    requires Faithful(db) && now >= RefreshedAt(db) && k.hour < RefreshStart(db, hours, now) && TrustedCell(db, k)
    ensures Observed(db, k) == |NonRobots(db, k)| <==>
              forall id :: Stranded(db, RefreshStart(db, hours, now), id) ==> CellOf(db, db.metrics[id]) != k
  {
    StrandedOf(db, hours, now, k);
    SubsetSize(SettledAt(db, k), NonRobots(db, k));
    if SettledAt(db, k) != NonRobots(db, k) {
      var id :| id in NonRobots(db, k) && id !in SettledAt(db, k);
      assert id in NonRobots(db, k) - SettledAt(db, k);
    }
    forall id | Stranded(db, RefreshStart(db, hours, now), id) && CellOf(db, db.metrics[id]) == k
      ensures id in NonRobots(db, k) && id !in SettledAt(db, k)
    {
      assert id in NonRobots(db, k) - SettledAt(db, k);
    }
  }

  /** From tables a refresh left, whatever measures arrived since: the next one keeps the reads if and only if it strands none. */
  lemma RefreshKeeps(db: Db, hours: int, now: int)
    requires Faithful(db) && now >= RefreshedAt(db)
    ensures Sound(Refresh(db, hours, now)) <==> NoneStranded(db, hours, now)
    ensures NoneStranded(db, hours, now) ==> Faithful(Refresh(db, hours, now))
  {
    var start, db' := RefreshStart(db, hours, now), Refresh(db, hours, now);
    RefreshReads(db, hours, now);
    forall k | TrustedCell(db, k) && k.hour < start
      ensures Observed(db, k) == |NonRobots(db, k)| <==> forall id :: Stranded(db, start, id) ==> CellOf(db, db.metrics[id]) != k
    {
      FaithfulCounts(db, hours, now, k);
    }
    assert forall id :: Stranded(db, start, id) ==> TrustedCell(db, CellOf(db, db.metrics[id]));
    if NoneStranded(db, hours, now) {
      forall k | TrustedCell(db', k) ensures k.hour < now && Observed(db', k) == |SettledAt(db', k)| {
        RefreshedCell(db, hours, now, k);
      }
    }
  }

  /** No cell is believed at or after `now`, so every cell is either rewritten or passed by. */
  lemma NoCellAhead(db: Db, hours: int, now: int, k: Cell)
    requires Faithful(db) && now >= RefreshedAt(db) && TrustedCell(Refresh(db, hours, now), k)
    ensures k.hour < now
  {
    var start, db' := RefreshStart(db, hours, now), Refresh(db, hours, now);
    if k.hour >= now {
      forall x: Cell | x.app == k.app && x.hour == k.hour
        ensures (x in db'.cells <==> x in db.cells) && (x in db.cells ==> db'.cells[x] == db.cells[x])
      {
        if x in FreshCells(db, start, now) { FreshCellShape(db, start, now, x); }
      }
      TrustElsewhere(db, db', k);
      BelievedIsPast(db, k);
    }
  }

  lemma BelievedIsPast(db: Db, k: Cell)
    requires Faithful(db) && TrustedCell(db, k)
    ensures k.hour < RefreshedAt(db)
  {
    var w :| w in db.cells && w.app == k.app && w.hour == k.hour && w.name == k.name;
    assert TrustedCell(db, w);
  }

  lemma RefreshedCell(db: Db, hours: int, now: int, k: Cell)
    requires Faithful(db) && now >= RefreshedAt(db) && NoneStranded(db, hours, now)
    requires TrustedCell(Refresh(db, hours, now), k)
    ensures k.hour < now && Observed(Refresh(db, hours, now), k) == |SettledAt(Refresh(db, hours, now), k)|
  {
    NoCellAhead(db, hours, now, k);
    if RefreshStart(db, hours, now) <= k.hour {
      RewrittenHours(db, hours, now, k);
    } else {
      StartBeforeNow(db, hours, now);
      PassedHours(db, hours, now, k);
      FaithfulCounts(db, hours, now, k);
      AllUnderWatermark(db, hours, now, k);
      SettledIsLeftToCell(Refresh(db, hours, now), k);
    }
  }

  // ------------------------------------------------------------------ whole runs

  datatype Step =
    | Inserted(id: nat, m: Metric)
    | Larger(id: nat, bucket: nat, ts: int)
    | Upserted(sid: string, s: Session)
    | SessionErased(sid: string)
    | AppPurged(app: string, cutoff: int, free: set<string>)
    | AppErased(app: string)
    | Refreshed(hours: int, now: int)

  ghost function Apply(db: Db, step: Step): Db {
    match step
    case Inserted(id, m) => InsertMetric(db, id, m)
    case Larger(id, bucket, ts) => RaiseMetric(db, id, bucket, ts)
    case Upserted(sid, s) => UpsertSession(db, sid, s)
    case SessionErased(sid) => EraseSession(db, sid)
    case AppPurged(app, cutoff, free) => PurgeApp(db, app, cutoff, free)
    case AppErased(app) => EraseApp(db, app)
    case Refreshed(hours, now) => Refresh(db, hours, now)
  }

  predicate HoldsSessionOf(db: Db, m: Metric, app: string) {
    m.session.Some? && m.session.value in db.sessions && db.sessions[m.session.value].app == app
  }

  /** What the ingestion and PostgreSQL grant every step: keys, the foreign key, and no empty device. */
  ghost predicate Possible(db: Db, step: Step) {
    match step
    case Inserted(id, m) => id !in db.metrics && (m.session.Some? ==> m.session.value in db.sessions)
    case Larger(id, _, _) => id in db.metrics
    case Upserted(_, s) => s.device != Some("")
    case AppErased(app) =>
      forall id :: id in db.metrics && db.metrics[id].app != app ==> !HoldsSessionOf(db, db.metrics[id], app)
    case _ => true
  }

  /** The guard of a step: it moves no measure in or out of an eligible cell, and a refresh leaves none behind. */
  ghost predicate Harmless(db: Db, step: Step) {
    match step
    case Inserted(id, m) => Share(db, id, m) == None
    case Larger(id, bucket, ts) =>
      id in db.metrics ==> Share(db, id, Raised(db.metrics[id], bucket, ts)) == Share(db, id, db.metrics[id])
    case Upserted(sid, s) => !SessionMoves(db, sid, s)
    case Refreshed(hours, now) =>
      NoneLate(db, RefreshStart(db, hours, now)) && GapCounts(db, RefreshStart(db, hours, now))
    case _ => true
  }

  lemma StepKeepsSound(db: Db, step: Step)
    requires Sound(db) && ForeignKey(db) && Possible(db, step)
    ensures Sound(Apply(db, step)) <==> Harmless(db, step)
  {
    match step
    case Inserted(id, m) => InsertKeeps(db, id, m);
    case Larger(id, bucket, ts) => RaiseKeeps(db, id, bucket, ts);
    case Upserted(sid, s) => UpsertKeeps(db, sid, s);
    case SessionErased(sid) => EraseSessionKeeps(db, sid);
    case AppPurged(app, cutoff, free) => PurgeAppKeeps(db, app, cutoff, free);
    case AppErased(app) => EraseAppKeeps(db, app);
    case Refreshed(hours, now) => RefreshGuard(db, hours, now);
  }

  lemma StepKeepsTables(db: Db, step: Step)
    requires Tables(db) && Possible(db, step)
    ensures Tables(Apply(db, step))
  {
    if step.Refreshed? {
      var start := RefreshStart(db, step.hours, step.now);
      forall k | k in Apply(db, step).cells ensures k.hour % HOUR == 0 {
        if k in FreshCells(db, start, step.now) {
          var id :| id in Aggregated(db, start, step.now) && CellOf(db, db.metrics[id]) == k;
        }
      }
    }
  }

  /** From exact reads, every query is read exactly after a step if and only if the step passes its guard. */
  lemma StepExact(db: Db, step: Step)
    requires Tables(db) && AlwaysExact(db) && Possible(db, step)
    ensures AlwaysExact(Apply(db, step)) <==> Harmless(db, step)
  {
    ExactIsSound(db);
    StepKeepsTables(db, step);
    ExactIsSound(Apply(db, step));
    StepKeepsSound(db, step);
  }

  ghost function After(db: Db, steps: seq<Step>): Db
    decreases |steps|
  {
    if steps == [] then db else After(Apply(db, steps[0]), steps[1..])
  }

  ghost predicate PossibleRun(db: Db, steps: seq<Step>)
    decreases |steps|
  {
    steps == [] || (Possible(db, steps[0]) && PossibleRun(Apply(db, steps[0]), steps[1..]))
  }

  ghost predicate HarmlessRun(db: Db, steps: seq<Step>)
    decreases |steps|
  {
    steps == [] || (Harmless(db, steps[0]) && HarmlessRun(Apply(db, steps[0]), steps[1..]))
  }

  ghost predicate ExactThroughout(db: Db, steps: seq<Step>)
    decreases |steps|
  {
    AlwaysExact(db) && (steps == [] || ExactThroughout(Apply(db, steps[0]), steps[1..]))
  }

  /** Over any run, every query is read exactly at every step if and only if every step passes its guard. */
  lemma {:induction false} RunExact(db: Db, steps: seq<Step>)
    requires Tables(db) && AlwaysExact(db) && PossibleRun(db, steps)
    ensures ExactThroughout(db, steps) <==> HarmlessRun(db, steps)
    decreases |steps|
  {
    if steps != [] {
      StepExact(db, steps[0]);
      StepKeepsTables(db, steps[0]);
      if Harmless(db, steps[0]) {
        RunExact(Apply(db, steps[0]), steps[1..]);
      }
    }
  }

  /** After a run that passes its guards, however long, every query still reads exactly. */
  lemma {:induction false} RunReadsExact(db: Db, steps: seq<Step>)
    requires Tables(db) && AlwaysExact(db) && PossibleRun(db, steps) && HarmlessRun(db, steps)
    ensures AlwaysExact(After(db, steps))
    decreases |steps|
  {
    if steps != [] {
      StepExact(db, steps[0]);
      StepKeepsTables(db, steps[0]);
      RunReadsExact(Apply(db, steps[0]), steps[1..]);
    }
  }

  /** Whatever went wrong before, a refresh that leaves no miscounting cell behind makes every query exact again. */
  lemma RefreshRepairs(db: Db, steps: seq<Step>, hours: int, now: int)
    requires Tables(db) && PossibleRun(db, steps)
    ensures AlwaysExact(Refresh(After(db, steps), hours, now)) <==>
              OldCellsCount(After(db, steps), RefreshStart(After(db, steps), hours, now))
  {
    RunKeepsTables(db, steps);
    StepKeepsTables(After(db, steps), Refreshed(hours, now));
    ExactIsSound(Refresh(After(db, steps), hours, now));
    RefreshReads(After(db, steps), hours, now);
  }

  lemma {:induction false} RunKeepsTables(db: Db, steps: seq<Step>)
    requires Tables(db) && PossibleRun(db, steps)
    ensures Tables(After(db, steps))
    decreases |steps|
  {
    if steps != [] {
      StepKeepsTables(db, steps[0]);
      RunKeepsTables(Apply(db, steps[0]), steps[1..]);
    }
  }

  /** An hour with a mark, or with a cell written before v80, is served from the measures alone. */
  lemma DistrustedHourIsRaw(db: Db, q: Question, app: string, hour: int)
    requires Answerable(q) && Decided(q.filters)
    requires (app, hour) in db.marks
             || exists k :: k in db.cells && k.app == app && k.hour == hour && k.name == q.variant && db.cells[k] == 0
    ensures forall k :: k in AggregateCells(db, q) ==> !(k.app == app && k.hour == hour)
    ensures forall id :: id in db.metrics && db.metrics[id].app == app && HourOf(db.metrics[id].ts) == hour ==>
              (InBrut(db, q, id, db.metrics[id]) <==> InPopulation(db, q, db.metrics[id]))
  {
    assert !Covered(db, q, app, hour);
    forall id | id in db.metrics && db.metrics[id].app == app && HourOf(db.metrics[id].ts) == hour
      ensures InBrut(db, q, id, db.metrics[id]) <==> InPopulation(db, q, db.metrics[id])
    {
      SegmentIsEnough(db, q.filters, db.metrics[id]);
    }
  }

  // ------------------------------------------------------------------ runs that go wrong

  const LCP0: Metric := Metric("a", Some("s"), "LCP", 0, 7, map[])
  const CELL0: Cell := Cell("a", "mobile", "LCP", 0, 7)

  /** One measure of a mobile session, aggregated by a refresh an hour later. */
  function Refreshed1h(): Db {
    Db(map[1 := LCP0], map["s" := Session("a", Some("mobile"), false, 0)], map[CELL0 := 1], {}, Some(Watermark(HOUR, 1)))
  }

  lemma Refreshed1hIsExact()
    ensures Tables(Refreshed1h()) && Sound(Refreshed1h()) && Eligible(Refreshed1h(), CELL0)
  {
    var db := Refreshed1h();
    assert CELL0 in db.cells;
    assert SessionOf(db, LCP0) == Some(Session("a", Some("mobile"), false, 0));
    assert CellOf(db, LCP0) == CELL0 && HourOf(HOUR) == HOUR;
    forall k | Eligible(db, k) ensures Observed(db, k) == |LeftToCell(db, k)| {
      if k == CELL0 {
        assert LeftToCell(db, k) == {1};
      } else {
        assert LeftToCell(db, k) == {};
      }
    }
  }

  /**
   A measure that arrives two days late lands in an hour already aggregated. The raw branch reads it
   until the next refresh, whose window of 26 hours does not reach its hour but whose watermark passes
   its identifier: from then on neither branch counts it.
   */
  lemma LateMeasureIsLost()
    ensures var late := InsertMetric(Refreshed1h(), 2, LCP0);
            AlwaysExact(late) && !AlwaysExact(Refresh(late, 26, 48 * HOUR))
  {
    var db, late := Refreshed1h(), InsertMetric(Refreshed1h(), 2, LCP0);
    Refreshed1hIsExact();
    ExactIsSound(db);
    assert Possible(db, Inserted(2, LCP0));
    StepExact(db, Inserted(2, LCP0));
    StepKeepsTables(db, Inserted(2, LCP0));
    SameEligible(db, late, CELL0);
    assert RefreshStart(late, 26, 48 * HOUR) == 22 * HOUR by { assert late.marks == {}; }
    assert Late(late, 22 * HOUR, 2);
    StepExact(late, Refreshed(26, 48 * HOUR));
  }

  /** The two hours after the epoch, without grouping. */
  function TwoHours(): Question {
    Question(Only({"a"}), 0, 2 * HOUR, "LCP", false, NO_FILTER)
  }

  /**
   A larger report moves a counted measure to an hour still open: its old cell keeps it and the raw
   branch reads it again, one measure under two buckets.
   */
  lemma LargerReportIsCountedTwice()
    ensures var db := RaiseMetric(Refreshed1h(), 1, 9, HOUR + 1);
            && HybridCount(db, TwoHours(), None, 7) == 1 && RawCount(db, TwoHours(), None, 7) == 0
            && HybridCount(db, TwoHours(), None, 9) == 1 && RawCount(db, TwoHours(), None, 9) == 1
  {
    var db, q := RaiseMetric(Refreshed1h(), 1, 9, HOUR + 1), TwoHours();
    NoConditions();
    JustAfterTheHour();
    RaisedIsRaw(db, q);
    RaisedCells(db, q);
    OldBucket(db, q);
    NewBucket(db, q);
  }

  lemma NoConditions()
    ensures ConditionsOf(NO_FILTER) == []
  {
    NoParamConditions(PARAM_DIMENSIONS);
  }

  lemma JustAfterTheHour()
    ensures HourOf(HOUR + 1) == HOUR
  {
  }

  lemma OldBucket(db: Db, q: Question)
    requires CELL0 in db.cells && CellsOf(db, q, None, 7) == {CELL0} && db.cells[CELL0] == 1
    requires RawIds(db, q, None, 7) == {} && BrutIds(db, q, None, 7) == {}
    ensures HybridCount(db, q, None, 7) == 1 && RawCount(db, q, None, 7) == 0
  {
    SumOne(db.cells, CELL0);
  }

  lemma NewBucket(db: Db, q: Question)
    requires CellsOf(db, q, None, 9) == {} && RawIds(db, q, None, 9) == {1} && BrutIds(db, q, None, 9) == {1}
    ensures HybridCount(db, q, None, 9) == 1 && RawCount(db, q, None, 9) == 1
  {
  }

  lemma RaisedIsRaw(db: Db, q: Question)
    requires db == RaiseMetric(Refreshed1h(), 1, 9, HOUR + 1) && q == TwoHours()
    requires ConditionsOf(q.filters) == [] && HourOf(HOUR + 1) == HOUR
    ensures RawIds(db, q, None, 7) == {} && RawIds(db, q, None, 9) == {1}
    ensures BrutIds(db, q, None, 7) == {} && BrutIds(db, q, None, 9) == {1}
  {
  }

  lemma RaisedCells(db: Db, q: Question)
    requires db == RaiseMetric(Refreshed1h(), 1, 9, HOUR + 1) && q == TwoHours()
    ensures CELL0 in db.cells && db.cells[CELL0] == 1
    ensures CellsOf(db, q, None, 7) == {CELL0} && CellsOf(db, q, None, 9) == {}
  {
    assert CELL0 in db.cells;
    assert Trusted(db, "a", 0, "LCP");
  }
}
