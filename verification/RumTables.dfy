/**
 The tables behind the hybrid read of Web Vitals, and what each maintenance statement does to them:
 the measures (`rum_metric`), the sessions, the hourly histogram, the register of invalidated hours
 and the watermark of the last refresh. Instants are microseconds since the epoch, in UTC.
 */
module RumTables {
  import opened Basics

  const HOUR: int := 3_600_000_000

  /** `date_trunc('hour', ts)`. */
  function HourOf(ts: int): (h: int)
    ensures h <= ts < h + HOUR && h % HOUR == 0
  {
    ts - ts % HOUR
  }

  /** The hour that starts at `ts` when it is aligned, the next one otherwise. */
  function CeilHour(ts: int): (h: int)
    ensures ts <= h < ts + HOUR && h % HOUR == 0
  {
    if HourOf(ts) == ts then ts else HourOf(ts) + HOUR
  }

  /** Two aligned instants, one before the other, are an hour apart at least. */
  lemma HoursApart(a: int, b: int)
    requires a % HOUR == 0 && b % HOUR == 0 && a < b
    ensures a + HOUR <= b
  {
    assert a == HOUR * (a / HOUR) && b == HOUR * (b / HOUR);
  }

  /** One measure, of a session or of none; `bucket` is `mip_seau(value)`, `dims` its dimensions other than the device. */
  datatype Metric = Metric(app: string, session: Option<string>, name: string, ts: int, bucket: nat, dims: map<string, string>)

  datatype Session = Session(app: string, device: Option<string>, bot: bool, lastSeen: int)

  /** Primary key of `metric_histogram_hourly`; a missing device is written `''`. */
  datatype Cell = Cell(app: string, device: string, name: string, hour: int, bucket: nat)

  datatype Watermark = Watermark(refreshedAt: int, maxId: nat)

  datatype Db = Db(
    metrics: map<nat, Metric>,
    sessions: map<string, Session>,
    cells: map<Cell, nat>,
    marks: set<(string, int)>,
    state: Option<Watermark>)

  const CORE_VITALS: set<string> := {"LCP", "INP", "CLS", "FCP", "TTFB"}

  // ------------------------------------------------------------------ reading a measure

  /** The session join is bounded by the app: a session identifier is issued by the client. */
  function SessionOf(db: Db, m: Metric): Option<Session> {
    if m.session.Some? && m.session.value in db.sessions && db.sessions[m.session.value].app == m.app then
      Some(db.sessions[m.session.value])
    else None
  }

  predicate IsBot(db: Db, m: Metric) {
    SessionOf(db, m).Some? && SessionOf(db, m).value.bot
  }

  function DeviceOf(db: Db, m: Metric): Option<string> {
    if SessionOf(db, m).Some? then SessionOf(db, m).value.device else None
  }

  function CellOf(db: Db, m: Metric): Cell {
    Cell(m.app, DeviceOf(db, m).GetOr(""), m.name, HourOf(m.ts), m.bucket)
  }

  function Wid(db: Db): nat {
    if db.state.Some? then db.state.value.maxId else 0
  }

  /** The instant up to which the aggregate is consolidated; the epoch before any refresh. */
  function RefreshedAt(db: Db): int {
    if db.state.Some? then db.state.value.refreshedAt else 0
  }

  function Observed(db: Db, k: Cell): nat {
    if k in db.cells then db.cells[k] else 0
  }

  /** The cells of one (app, hour, metric): at least one, all counted since v80, and no mark. */
  ghost predicate Trusted(db: Db, app: string, hour: int, name: string) {
    && (exists k :: k in db.cells && k.app == app && k.hour == hour && k.name == name)
    && (forall k :: k in db.cells && k.app == app && k.hour == hour && k.name == name ==> db.cells[k] > 0)
    && (app, hour) !in db.marks
  }

  ghost predicate TrustedCell(db: Db, k: Cell) {
    Trusted(db, k.app, k.hour, k.name)
  }

  /** The measure belongs to what the last refresh had to count. */
  predicate Settled(db: Db, id: nat, m: Metric) {
    id <= Wid(db) && m.ts < RefreshedAt(db) && !IsBot(db, m)
  }

  ghost function SettledAt(db: Db, k: Cell): set<nat> {
    set id | id in db.metrics && Settled(db, id, db.metrics[id]) && CellOf(db, db.metrics[id]) == k
  }

  /** What a refresh is meant to leave: believed cells count exactly the measures it had to count. */
  ghost predicate Faithful(db: Db) {
    && (db.state.None? ==> db.cells == map[])
    && (forall k :: k in db.cells && TrustedCell(db, k) ==> k.hour < RefreshedAt(db))
    && (forall k :: TrustedCell(db, k) ==> Observed(db, k) == |SettledAt(db, k)|)
  }

  ghost predicate NoBlankDevice(db: Db) {
    forall sid :: sid in db.sessions ==> db.sessions[sid].device != Some("")
  }

  // ------------------------------------------------------------------ ingestion

  /** A new row of `rum_metric`, under an identifier drawn from the sequence. */
  function InsertMetric(db: Db, id: nat, m: Metric): Db {
    db.(metrics := db.metrics[id := m])
  }

  /** A larger report of a measure already stored replaces its value and its instant, in place. */
  function RaiseMetric(db: Db, id: nat, bucket: nat, ts: int): Db {
    if id in db.metrics then
      db.(metrics := db.metrics[id := db.metrics[id].(bucket := bucket, ts := ts)])
    else db
  }

  /** `on conflict (session_id) do update`: a known device stays, `is_bot` is never rewritten. */
  function UpsertSession(db: Db, sid: string, s: Session): Db {
    if sid !in db.sessions then db.(sessions := db.sessions[sid := s])
    else
      var prior := db.sessions[sid];
      if prior.app != s.app then db
      else db.(sessions := db.sessions[sid := Merged(prior, s)])
  }

  function Merged(prior: Session, s: Session): Session {
    prior.(device := if prior.device.Some? then prior.device else s.device, lastSeen := Max(prior.lastSeen, s.lastSeen))
  }

  // ------------------------------------------------------------------ erasures

  /** `erase_session`: the measures go, and the hours they were in are marked in the same statement. */
  function EraseSession(db: Db, sid: string): Db {
    db.(metrics := map id | id in db.metrics && db.metrics[id].session != Some(sid) :: db.metrics[id],
        marks := db.marks + (set id | id in db.metrics && db.metrics[id].session == Some(sid) ::
          (db.metrics[id].app, HourOf(db.metrics[id].ts))),
        sessions := db.sessions - {sid})
  }

  /**
   `purge_rum_app`: measures before the cutoff, cells and marks of hours before it, then the sessions
   last seen before it that nothing holds any more (`free`: those the other tables do not hold).
   */
  function PurgeApp(db: Db, app: string, cutoff: int, free: set<string>): Db {
    var kept := map id | id in db.metrics && !(db.metrics[id].app == app && db.metrics[id].ts < cutoff) :: db.metrics[id];
    db.(metrics := kept,
        cells := map k | k in db.cells && !(k.app == app && k.hour < cutoff) :: db.cells[k],
        marks := (set x | x in db.marks && !(x.0 == app && x.1 < cutoff)),
        sessions := map sid | sid in db.sessions
          && !(db.sessions[sid].app == app && db.sessions[sid].lastSeen < cutoff && sid in free
               && forall id :: id in kept ==> kept[id].session != Some(sid)) :: db.sessions[sid])
  }

  /** `erase_app_data`. */
  function EraseApp(db: Db, app: string): Db {
    db.(metrics := map id | id in db.metrics && db.metrics[id].app != app :: db.metrics[id],
        sessions := map sid | sid in db.sessions && db.sessions[sid].app != app :: db.sessions[sid],
        cells := map k | k in db.cells && k.app != app :: db.cells[k],
        marks := set x | x in db.marks && x.0 != app)
  }

  // ------------------------------------------------------------------ the refresh

  ghost function OldestMark(marks: set<(string, int)>): int
    requires marks != {}
  {
    var x := Pick(marks);
    if marks == {x} then x.1 else Min(x.1, OldestMark(marks - {x}))
  }

  lemma {:induction false} OldestMarkIsOldest(marks: set<(string, int)>, x: (string, int))
    requires x in marks
    ensures OldestMark(marks) <= x.1
    decreases |marks|
  {
    var y := Pick(marks);
    if x != y {
      OldestMarkIsOldest(marks - {y}, x);
    }
  }

  /** `mip_fenetre_reprise`: the ordinary window, widened to the oldest pending mark, 90 days at most. */
  ghost function ResumeWindow(db: Db, hours: int, now: int): (h: int)
    ensures 1 <= h <= 24 * 90
  {
    var ordinary := Max(hours, 1);
    var wanted := if db.marks == {} then ordinary
                  else (now - OldestMark(db.marks) + HOUR - 1) / HOUR + 1;
    Min(24 * 90, Max(ordinary, wanted))
  }

  /** The first whole hour the refresh rewrites. */
  ghost function RefreshStart(db: Db, hours: int, now: int): int {
    CeilHour(now - ResumeWindow(db, hours, now) * HOUR)
  }

  /** The measures the refresh aggregates: whole hours up to now, core vitals, robots excluded. */
  ghost function Aggregated(db: Db, start: int, now: int): set<nat> {
    set id | id in db.metrics && start <= db.metrics[id].ts < now
             && db.metrics[id].name in CORE_VITALS && !IsBot(db, db.metrics[id])
  }

  ghost function FreshCells(db: Db, start: int, now: int): map<Cell, nat> {
    var ids := Aggregated(db, start, now);
    var keys := set id | id in ids :: CellOf(db, db.metrics[id]);
    map k | k in keys :: |set id | id in ids && CellOf(db, db.metrics[id]) == k|
  }

  /** `refresh_metric_histogram`, as v81 left it. */
  ghost function Refresh(db: Db, hours: int, now: int): Db {
    var start := RefreshStart(db, hours, now);
    var kept := map k | k in db.cells && !(start <= k.hour < now) :: db.cells[k];
    db.(cells := kept + FreshCells(db, start, now),
        marks := (set x | x in db.marks && !(start <= x.1 < now)),
        state := Some(Watermark(now, Largest(db.metrics.Keys))))
  }
}
