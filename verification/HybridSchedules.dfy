/**
 Which schedules keep every read exact, told on the schedule alone: when each refresh ran and how far back
 it went, when each measure came and under which instant. Cells, marks and trust are never looked at.
 */
module HybridSchedules {
  import opened Basics
  import opened RumTables
  import opened HybridRead
  import opened HybridRuns

  /**
   What is kept of the past: the last refresh, the largest identifier drawn so far and at that refresh, and
   the instant of every measure received.
   */
  datatype Watch = Watch(refreshedAt: Option<int>, drawn: nat, aggregated: nat, instants: map<nat, int>)

  /** The first hour of the ordinary window: a pending mark can only widen it. */
  function OrdinaryStart(hours: int, now: int): int {
    CeilHour(now - Min(24 * 90, Max(hours, 1)) * HOUR)
  }

  /** Every report of a session carries the device its session has. */
  predicate SameDevices(db: Db, devices: string -> Option<string>) {
    forall sid :: sid in db.sessions ==> db.sessions[sid].device == devices(sid)
  }

  /** Not yet aggregated, or of the hour of the last refresh and kept there or later. */
  predicate Open(w: Watch, id: nat, ts: int) {
    id in w.instants &&
    (|| w.refreshedAt.None? || id > w.aggregated
     || (w.instants[id] >= HourOf(w.refreshedAt.value) && ts >= HourOf(w.refreshedAt.value)))
  }

  /** The window reaches the hour of the last refresh, and the instant of every measure received since. */
  predicate Reaches(w: Watch, hours: int, now: int) {
    w.refreshedAt.Some? ==>
      && OrdinaryStart(hours, now) <= HourOf(w.refreshedAt.value)
      && forall id :: id in w.instants && id > w.aggregated ==> OrdinaryStart(hours, now) <= w.instants[id]
  }

  predicate Allowed(w: Watch, devices: string -> Option<string>, step: Step) {
    match step
    case Inserted(id, _) => id > w.drawn
    case Larger(id, _, ts) => Open(w, id, ts)
    case Upserted(sid, s) => s.device == devices(sid)
    case Refreshed(hours, now) => Reaches(w, hours, now)
    case _ => true
  }

  function Watched(w: Watch, step: Step): Watch {
    match step
    case Inserted(id, m) => w.(drawn := id, instants := w.instants[id := m.ts])
    case Larger(id, _, ts) => w.(instants := w.instants[id := ts])
    case Refreshed(_, now) => w.(refreshedAt := Some(now), aggregated := w.drawn)
    case _ => w
  }

  /** The schedule is regular: a fold over its steps, without the tables. */
  predicate Regular(w: Watch, devices: string -> Option<string>, steps: seq<Step>)
    decreases |steps|
  {
    steps == [] || (Allowed(w, devices, steps[0]) && Regular(Watched(w, steps[0]), devices, steps[1..]))
  }

  /** The watch tells the truth about the tables. */
  ghost predicate Tells(w: Watch, db: Db) {
    && (if w.refreshedAt.None? then db.state.None? && db.cells == map[] else RefreshedAt(db) == w.refreshedAt.value)
    && Wid(db) <= w.aggregated <= w.drawn
    && forall id :: id in db.metrics ==> Known(w, db, id)
  }

  predicate Known(w: Watch, db: Db, id: nat)
    requires id in db.metrics
  {
    id <= w.drawn && id in w.instants && w.instants[id] == db.metrics[id].ts && (id > Wid(db) ==> id > w.aggregated)
  }

  lemma NoCellNoShare(db: Db, id: nat, m: Metric)
    requires db.cells == map[]
    ensures Share(db, id, m) == None
  {
  }

  lemma OpenIsHarmless(w: Watch, db: Db, id: nat, bucket: nat, ts: int)
    requires Tells(w, db) && Open(w, id, ts)
    ensures Harmless(db, Larger(id, bucket, ts))
  {
    if id in db.metrics {
      assert Known(w, db, id);
      var m := db.metrics[id];
      var m' := Raised(m, bucket, ts);
      if w.refreshedAt.None? {
        NoCellNoShare(db, id, m);
        NoCellNoShare(db, id, m');
      } else if id <= w.aggregated {
        OpenHourHasNoShare(db, id, m);
        OpenHourHasNoShare(db, id, m');
      }
    }
  }

  lemma OrdinaryIsLater(db: Db, hours: int, now: int)
    ensures RefreshStart(db, hours, now) <= OrdinaryStart(hours, now)
  {
    var wide, ordinary := ResumeWindow(db, hours, now), Min(24 * 90, Max(hours, 1));
    assert wide >= ordinary;
    CeilMonotone(now - wide * HOUR, now - ordinary * HOUR);
  }

  lemma CeilMonotone(s: int, t: int)
    requires s <= t
    ensures CeilHour(s) <= CeilHour(t)
  {
    if CeilHour(t) < CeilHour(s) {
      HoursApart(CeilHour(t), CeilHour(s));
    }
  }

  /** The window of 26 hours reaches far enough when neither the last refresh nor any measure since is more than 25 hours old. */
  lemma TwentyFiveHoursAreReached(w: Watch, now: int)
    requires w.refreshedAt.Some? ==> now - w.refreshedAt.value <= 25 * HOUR
    requires forall id :: id in w.instants && id > w.aggregated ==> now - w.instants[id] <= 25 * HOUR
    ensures Reaches(w, 26, now)
  {
    var start := OrdinaryStart(26, now);
    assert start < now - 25 * HOUR;
    if w.refreshedAt.Some? && HourOf(w.refreshedAt.value) < start {
      HoursApart(HourOf(w.refreshedAt.value), start);
    }
  }

  lemma ReachingIsHarmless(w: Watch, db: Db, hours: int, now: int)
    requires Sound(db) && Tells(w, db) && Reaches(w, hours, now)
    ensures Harmless(db, Refreshed(hours, now))
  {
    var start := RefreshStart(db, hours, now);
    OrdinaryIsLater(db, hours, now);
    RefreshGuard(db, hours, now);
    assert w.refreshedAt.None? ==> GapCounts(db, start);
    forall id: nat ensures !Late(db, start, id) {
      if id in db.metrics && id > Wid(db) { NotLate(w, db, hours, now, id); }
    }
  }

  lemma NotLate(w: Watch, db: Db, hours: int, now: int, id: nat)
    requires Tells(w, db) && Reaches(w, hours, now) && id in db.metrics && id > Wid(db)
    ensures !Late(db, RefreshStart(db, hours, now), id)
  {
    var start, ts := RefreshStart(db, hours, now), db.metrics[id].ts;
    assert Known(w, db, id);
    OrdinaryIsLater(db, hours, now);
    if HourOf(ts) < start { HoursApart(HourOf(ts), start); }
  }

  lemma AllowedIsHarmless(w: Watch, devices: string -> Option<string>, db: Db, step: Step)
    requires Sound(db) && Tells(w, db) && SameDevices(db, devices) && Allowed(w, devices, step)
    ensures Harmless(db, step)
  {
    match step
    case Inserted(id, m) =>
    case Larger(id, bucket, ts) => OpenIsHarmless(w, db, id, bucket, ts);
    case Upserted(sid, s) => assert !DeviceArrives(db, sid, s);
    case Refreshed(hours, now) => ReachingIsHarmless(w, db, hours, now);
    case _ =>
  }

  lemma StillTells(w: Watch, devices: string -> Option<string>, db: Db, step: Step)
    requires Tells(w, db) && Possible(db, step) && Allowed(w, devices, step)
    ensures Tells(Watched(w, step), Apply(db, step))
  {
    var w', db' := Watched(w, step), Apply(db, step);
    if step.Refreshed? {
      RefreshTells(w, db, step.hours, step.now);
    } else {
      forall id | id in db'.metrics ensures Known(w', db', id) {
        assert id in db.metrics ==> Known(w, db, id);
      }
    }
  }

  lemma RefreshTells(w: Watch, db: Db, hours: int, now: int)
    requires Tells(w, db)
    ensures Tells(Watched(w, Refreshed(hours, now)), Refresh(db, hours, now))
  {
    var w', db' := Watched(w, Refreshed(hours, now)), Refresh(db, hours, now);
    assert forall id :: id in db.metrics ==> Known(w, db, id);
    LargestIsOne(db.metrics.Keys, w.drawn);
    forall id | id in db'.metrics ensures Known(w', db', id) { LargestBounds(db.metrics.Keys, id); }
  }

  /** The largest of some numbers is no larger than a bound of them all. */
  lemma {:induction false} LargestIsOne(s: set<nat>, bound: nat)
    requires forall x :: x in s ==> x <= bound
    ensures Largest(s) <= bound
    decreases |s|
  {
    if s != {} { LargestIsOne(s - {Pick(s)}, bound); }
  }

  lemma StillSameDevices(db: Db, devices: string -> Option<string>, w: Watch, step: Step)
    requires SameDevices(db, devices) && Allowed(w, devices, step)
    ensures SameDevices(Apply(db, step), devices)
  {
  }

  lemma {:induction false} RegularIsHarmless(w: Watch, devices: string -> Option<string>, db: Db, steps: seq<Step>)
    requires Tables(db) && AlwaysExact(db) && PossibleRun(db, steps)
    requires Tells(w, db) && SameDevices(db, devices) && Regular(w, devices, steps)
    ensures HarmlessRun(db, steps)
    decreases |steps|
  {
    if steps != [] {
      ExactIsSound(db);
      AllowedIsHarmless(w, devices, db, steps[0]);
      StepExact(db, steps[0]);
      StepKeepsTables(db, steps[0]);
      StillTells(w, devices, db, steps[0]);
      StillSameDevices(db, devices, w, steps[0]);
      RegularIsHarmless(Watched(w, steps[0]), devices, Apply(db, steps[0]), steps[1..]);
    }
  }

  /**
   A schedule whose identifiers are drawn in order, whose refreshes each reach the hour of the one before
   and every measure received since, whose larger reports come before their measure is aggregated or stay in
   the hour of the last refresh, and whose sessions keep their device, reads every query exactly throughout.
   */
  lemma RegularRunIsExact(w: Watch, devices: string -> Option<string>, db: Db, steps: seq<Step>)
    requires Tables(db) && AlwaysExact(db) && PossibleRun(db, steps)
    requires Tells(w, db) && SameDevices(db, devices) && Regular(w, devices, steps)
    ensures ExactThroughout(db, steps)
  {
    RegularIsHarmless(w, devices, db, steps);
    RunExact(db, steps);
  }

  /** From tables no refresh ever touched, the first one may come at any time. */
  lemma RegularFromStart(devices: string -> Option<string>, db: Db, steps: seq<Step>)
    requires Tables(db) && db.state.None? && db.cells == map[] && PossibleRun(db, steps)
    requires SameDevices(db, devices)
    requires Regular(Watch(None, Largest(db.metrics.Keys), 0, map id | id in db.metrics :: db.metrics[id].ts), devices, steps)
    ensures ExactThroughout(db, steps)
  {
    var w := Watch(None, Largest(db.metrics.Keys), 0, map id | id in db.metrics :: db.metrics[id].ts);
    forall id | id in db.metrics ensures Known(w, db, id) { LargestBounds(db.metrics.Keys, id); }
    NeverRefreshed(db);
    ExactIsSound(db);
    RegularRunIsExact(w, devices, db, steps);
  }
}
