/**
 What each statement of the ingestion, of the erasures and of the refresh does to the rows of the four tables,
 row by row: what goes, what changes, and that nothing else does.
 */
module TableLaws {
  import opened Basics
  import opened RumTables

  // ------------------------------------------------------------------ ingestion

  /** A report changes one row of the measures and nothing of the other tables. */
  lemma ReportsTouchOneRow(db: Db, id: nat, m: Metric, bucket: nat, ts: int)
    ensures var db' := InsertMetric(db, id, m);
            && db'.metrics.Keys == db.metrics.Keys + {id} && db'.metrics[id] == m
            && (forall x :: x in db.metrics && x != id ==> db'.metrics[x] == db.metrics[x])
            && db' == db.(metrics := db'.metrics)
    ensures var db' := RaiseMetric(db, id, bucket, ts);
            && db'.metrics.Keys == db.metrics.Keys && db' == db.(metrics := db'.metrics)
            && (forall x :: x in db.metrics && x != id ==> db'.metrics[x] == db.metrics[x])
            && (id in db.metrics ==>
                 var before, after := db.metrics[id], db'.metrics[id];
                 && after.bucket == bucket && after.ts == ts
                 && after.app == before.app && after.session == before.session && after.name == before.name && after.dims == before.dims)
  {
  }

  /**
   An upsert creates the session it does not find; of one it finds it keeps app, robot flag and a known device,
   fills in a missing one, never goes back in time, and leaves the sessions of another app alone.
   */
  lemma UpsertIsSticky(db: Db, sid: string, s: Session)
    ensures var db' := UpsertSession(db, sid, s);
            && db'.sessions.Keys == db.sessions.Keys + {sid} && db' == db.(sessions := db'.sessions)
            && (forall x :: x in db.sessions && x != sid ==> db'.sessions[x] == db.sessions[x])
            && (sid !in db.sessions ==> db'.sessions[sid] == s)
            && (sid in db.sessions ==>
                 var before, after := db.sessions[sid], db'.sessions[sid];
                 if before.app != s.app then after == before
                 else
                   && after.app == before.app && after.bot == before.bot
                   && (if before.device.Some? then after.device == before.device else after.device == s.device)
                   && after.lastSeen >= before.lastSeen && after.lastSeen >= s.lastSeen
                   && (after.lastSeen == before.lastSeen || after.lastSeen == s.lastSeen))
  {
  }

  /** Sent again, a report of a session changes nothing; of two, only the device may depend on the order. */
  lemma UpsertIsIdempotent(db: Db, sid: string, s: Session, t: Session)
    ensures UpsertSession(UpsertSession(db, sid, s), sid, s) == UpsertSession(db, sid, s)
    ensures sid in db.sessions && (s.device.None? || t.device.None? || s.device == t.device || db.sessions[sid].device.Some?) ==>
              UpsertSession(UpsertSession(db, sid, s), sid, t) == UpsertSession(UpsertSession(db, sid, t), sid, s)
  {
    UpsertedTwice(db, sid, s, s);
    if sid in db.sessions {
      UpsertedTwice(db, sid, s, t);
      UpsertedTwice(db, sid, t, s);
    }
  }

  lemma UpsertedTwice(db: Db, sid: string, s: Session, t: Session)
    ensures var first := if sid !in db.sessions then s
                         else if db.sessions[sid].app == s.app then Merged(db.sessions[sid], s) else db.sessions[sid];
            UpsertSession(UpsertSession(db, sid, s), sid, t)
            == db.(sessions := db.sessions[sid := if first.app == t.app then Merged(first, t) else first])
  {
    var first := if sid !in db.sessions then s
                 else if db.sessions[sid].app == s.app then Merged(db.sessions[sid], s) else db.sessions[sid];
    assert UpsertSession(db, sid, s).sessions == db.sessions[sid := first];
  }

  // ------------------------------------------------------------------ erasures

  /** Nothing of the session remains, the hours its measures were in are marked, and nothing else is touched. */
  lemma EraseSessionIsComplete(db: Db, sid: string)
    ensures var db' := EraseSession(db, sid);
            && sid !in db'.sessions && (forall id :: id in db'.metrics ==> db'.metrics[id].session != Some(sid))
            && (forall x :: x in db.sessions && x != sid ==> x in db'.sessions && db'.sessions[x] == db.sessions[x])
            && (forall id :: id in db.metrics && db.metrics[id].session != Some(sid) ==>
                 id in db'.metrics && db'.metrics[id] == db.metrics[id])
            && db'.sessions.Keys <= db.sessions.Keys && db'.metrics.Keys <= db.metrics.Keys
            && db'.cells == db.cells && db'.state == db.state && db.marks <= db'.marks
    ensures forall app, hour :: (app, hour) in EraseSession(db, sid).marks - db.marks ==>
              exists id :: id in db.metrics && db.metrics[id].session == Some(sid) && db.metrics[id].app == app && HourOf(db.metrics[id].ts) == hour
    ensures forall id :: id in db.metrics && db.metrics[id].session == Some(sid) ==>
              (db.metrics[id].app, HourOf(db.metrics[id].ts)) in EraseSession(db, sid).marks
  {
  }

  /** Nothing of the app remains in any table, and everything of the others does. */
  lemma EraseAppIsComplete(db: Db, app: string)
    ensures var db' := EraseApp(db, app);
            && (forall id :: id in db'.metrics <==> id in db.metrics && db.metrics[id].app != app)
            && (forall sid :: sid in db'.sessions <==> sid in db.sessions && db.sessions[sid].app != app)
            && (forall k :: k in db'.cells <==> k in db.cells && k.app != app)
            && (forall x :: x in db'.marks <==> x in db.marks && x.0 != app)
            && (forall id :: id in db'.metrics ==> db'.metrics[id] == db.metrics[id])
            && (forall sid :: sid in db'.sessions ==> db'.sessions[sid] == db.sessions[sid])
            && (forall k :: k in db'.cells ==> db'.cells[k] == db.cells[k])
            && db'.state == db.state
  {
  }

  /**
   The retention purge of an app takes its measures, cells and marks of before the cutoff, and its sessions last
   seen before it that no measure left and no other table holds; it takes nothing else.
   */
  lemma PurgeIsComplete(db: Db, app: string, cutoff: int, free: set<string>)
    ensures var db' := PurgeApp(db, app, cutoff, free);
            && (forall id :: id in db'.metrics <==> id in db.metrics && (db.metrics[id].app == app ==> db.metrics[id].ts >= cutoff))
            && (forall k :: k in db'.cells <==> k in db.cells && (k.app == app ==> k.hour >= cutoff))
            && (forall x :: x in db'.marks <==> x in db.marks && (x.0 == app ==> x.1 >= cutoff))
            && (forall id :: id in db'.metrics ==> db'.metrics[id] == db.metrics[id])
            && (forall k :: k in db'.cells ==> db'.cells[k] == db.cells[k]) && db'.state == db.state
    ensures var db' := PurgeApp(db, app, cutoff, free);
            && (forall sid :: sid in db'.sessions ==> sid in db.sessions && db'.sessions[sid] == db.sessions[sid])
            && (forall sid :: sid in db.sessions && sid !in db'.sessions ==>
                 && db.sessions[sid].app == app && db.sessions[sid].lastSeen < cutoff && sid in free
                 && forall id :: id in db'.metrics ==> db'.metrics[id].session != Some(sid))
            && (forall sid :: sid in db'.sessions && db.sessions[sid].app == app && db.sessions[sid].lastSeen < cutoff && sid in free ==>
                 exists id :: id in db'.metrics && db'.metrics[id].session == Some(sid))
  {
  }

  // ------------------------------------------------------------------ the refresh

  /** No measure, session, older cell or mark outside the window is touched; both watermarks move to now. */
  lemma RefreshTouchesItsWindow(db: Db, hours: int, now: int)
    ensures var start, db' := RefreshStart(db, hours, now), Refresh(db, hours, now);
            && db'.metrics == db.metrics && db'.sessions == db.sessions
            && (forall k :: k in db.cells && !(start <= k.hour < now) && k !in FreshCells(db, start, now) ==>
                 k in db'.cells && db'.cells[k] == db.cells[k])
            && (forall x :: x in db'.marks <==> x in db.marks && !(start <= x.1 < now))
            && db'.state.Some? && db'.state.value.refreshedAt == now
            && (forall id :: id in db.metrics ==> id <= db'.state.value.maxId)
            && (db.metrics == map[] || db'.state.value.maxId in db.metrics)
  {
    forall id | id in db.metrics ensures id <= Largest(db.metrics.Keys) { LargestBounds(db.metrics.Keys, id); }
    if db.metrics != map[] {
      LargestIsMember(db.metrics.Keys);
    }
  }

  lemma {:induction false} LargestIsMember(s: set<nat>)
    requires s != {}
    ensures Largest(s) in s
    decreases |s|
  {
    var x := Pick(s);
    if s - {x} != {} {
      LargestIsMember(s - {x});
    }
  }

  /**
   In an hour of its window the refresh writes one cell for each app, device, vital and bucket that has measures of no
   robot there, instant before `now`, and the cell counts them.
   */
  lemma RefreshCounts(db: Db, hours: int, now: int, k: Cell)
    requires RefreshStart(db, hours, now) <= k.hour < now
    ensures k in Refresh(db, hours, now).cells <==> Counted(db, now, k) != {}
    ensures k in Refresh(db, hours, now).cells ==> Refresh(db, hours, now).cells[k] == |Counted(db, now, k)|
  {
    var start := RefreshStart(db, hours, now);
    var mine := Counted(db, now, k);
    forall id ensures id in mine <==> id in Aggregated(db, start, now) && CellOf(db, db.metrics[id]) == k {
      if id in db.metrics { CountsExactly(db, start, now, k, id); }
    }
    FreshExactly(db, start, now, k, mine);
    RewrittenIsFresh(db, hours, now, k);
  }

  /** In its window the refresh leaves what it writes, and nothing else. */
  lemma RewrittenIsFresh(db: Db, hours: int, now: int, k: Cell)
    requires RefreshStart(db, hours, now) <= k.hour < now
    ensures var written := FreshCells(db, RefreshStart(db, hours, now), now);
            && (k in Refresh(db, hours, now).cells <==> k in written)
            && (k in written ==> Refresh(db, hours, now).cells[k] == written[k])
  {
  }

  lemma FreshExactly(db: Db, start: int, now: int, k: Cell, mine: set<nat>)
    requires forall id :: id in mine <==> id in Aggregated(db, start, now) && CellOf(db, db.metrics[id]) == k
    ensures k in FreshCells(db, start, now) <==> mine != {}
    ensures mine != {} ==> FreshCells(db, start, now)[k] == |mine|
  {
    assert mine == set id | id in Aggregated(db, start, now) && CellOf(db, db.metrics[id]) == k;
    if mine != {} {
      var id :| id in mine;
    }
  }

  lemma CountsExactly(db: Db, start: int, now: int, k: Cell, id: nat)
    requires id in db.metrics && start <= k.hour
    ensures Counts(db, now, k, db.metrics[id]) <==> id in Aggregated(db, start, now) && CellOf(db, db.metrics[id]) == k
  {
    HourHolds(db.metrics[id].ts, k.hour);
  }

  ghost function Counted(db: Db, now: int, k: Cell): set<nat> {
    set id | id in db.metrics && Counts(db, now, k, db.metrics[id])
  }

  predicate Counts(db: Db, now: int, k: Cell, m: Metric) {
    && m.app == k.app && m.name == k.name && m.bucket == k.bucket
    && (m.name == "LCP" || m.name == "INP" || m.name == "CLS" || m.name == "FCP" || m.name == "TTFB")
    && k.hour % HOUR == 0 && k.hour <= m.ts < k.hour + HOUR && m.ts < now
    && (if m.session.Some? && m.session.value in db.sessions && db.sessions[m.session.value].app == m.app then
          !db.sessions[m.session.value].bot && db.sessions[m.session.value].device.GetOr("") == k.device
        else k.device == "")
  }

  lemma HourHolds(ts: int, hour: int)
    ensures HourOf(ts) == hour <==> hour % HOUR == 0 && hour <= ts < hour + HOUR
  {
    if hour % HOUR == 0 && hour <= ts < hour + HOUR {
      if hour < HourOf(ts) { HoursApart(hour, HourOf(ts)); }
      if HourOf(ts) < hour { HoursApart(HourOf(ts), hour); }
    }
  }

  /** Without a mark the window goes back by the hours asked for, one at least and ninety days at most, to the next whole hour. */
  lemma OrdinaryWindow(db: Db, hours: int, now: int)
    requires db.marks == {}
    ensures var start, back := RefreshStart(db, hours, now), Min(24 * 90, Max(hours, 1)) * HOUR;
            start % HOUR == 0 && now - back <= start < now - back + HOUR
  {
  }

  /** The window starts on a whole hour, reaches the oldest mark of the last ninety days, and goes no further than they do. */
  lemma WindowReaches(db: Db, hours: int, now: int, x: (string, int))
    requires x in db.marks
    ensures var start := RefreshStart(db, hours, now);
            && start % HOUR == 0 && start >= now - (24 * 90) * HOUR
            && (hours <= 24 * 90 ==> start < now - Max(hours, 1) * HOUR + HOUR)
            && (x.1 >= now - 24 * 90 * HOUR ==> start < x.1 + HOUR)
  {
    OldestMarkIsOldest(db.marks, x);
    var span := now - OldestMark(db.marks);
    assert ((span + HOUR - 1) / HOUR) * HOUR >= span;
  }
}
