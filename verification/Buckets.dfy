/**
 Time buckets of a resolved range: those the series pages draw (`bucketStarts`) and those the database
 generates (`bucketSeriesSql`, `bucketExpr`) must be the same instants, and hold every row of the range.
 From six hours up both are cut on the wall clock of Paris. Instants are microseconds.
 */
module Buckets {
  import opened Basics

  const SECONDE := 1_000_000
  const HEURE := 3_600 * SECONDE
  const SIX_HEURES := 6 * HEURE
  const JOUR := 24 * HEURE

  const MAX_POINTS := 300
  const RANGE_MAX := 30 * JOUR

  /** 2000-01-01 00:00, on UTC and on the wall clock alike. */
  const ORIGIN := 10_957 * JOUR

  /** `date_bin(width, t, origin)`. */
  function DateBin(width: int, t: int, origin: int): int
    requires width > 0
  {
    t - (t - origin) % width
  }

  /** `generate_series(start, stop, width)`. */
  function GenerateSeries(start: int, stop: int, width: int): seq<int>
    requires width > 0
    decreases stop - start
  {
    if start > stop then [] else [start] + GenerateSeries(start + width, stop, width)
  }

  lemma {:induction false} SeriesMembers(start: int, stop: int, width: int, x: int)
    requires width > 0
    ensures x in GenerateSeries(start, stop, width) <==> start <= x <= stop && (x - start) % width == 0
    decreases stop - start
  {
    StepMultiple(x - start, width);
    if start <= stop {
      SeriesMembers(start + width, stop, width, x);
      assert x - (start + width) == (x - start) - width;
      var rest := GenerateSeries(start + width, stop, width);
      assert x in [start] + rest <==> x == start || x in rest;
    }
  }

  lemma MulAtLeast(i: int, j: int, width: int)
    requires width > 0 && i > j
    ensures i * width - j * width >= width
  {
    assert i * width - j * width == (i - j) * width;
    assert (i - j - 1) * width >= 0;
  }

  /** Quotient and remainder are the only ones. */
  lemma ModUnique(x: int, q: int, r: int, width: int)
    requires width > 0 && x == q * width + r && 0 <= r < width
    ensures x / width == q && x % width == r
  {
    if x / width > q { MulAtLeast(x / width, q, width); }
    if x / width < q { MulAtLeast(q, x / width, width); }
  }

  lemma StepMultiple(d: int, width: int)
    requires width > 0
    ensures d % width == 0 <==> (d - width) % width == 0
    ensures 0 < d < width ==> d % width != 0
    ensures d == 0 ==> d % width == 0
  {
    ModUnique(d - width, d / width - 1, d % width, width);
    if 0 < d < width { ModUnique(d, 0, d, width); }
  }

  lemma BinsAlign(width: int, s: int, t: int, origin: int)
    requires width > 0
    ensures (DateBin(width, t, origin) - DateBin(width, s, origin)) % width == 0
    ensures s <= t ==> DateBin(width, s, origin) <= DateBin(width, t, origin)
    ensures DateBin(width, t, origin) <= t
  {
    var i, j := (s - origin) / width, (t - origin) / width;
    assert DateBin(width, s, origin) == origin + i * width && DateBin(width, t, origin) == origin + j * width;
    assert DateBin(width, t, origin) - DateBin(width, s, origin) == (j - i) * width;
    ModUnique((j - i) * width, j - i, 0, width);
    if s <= t { QuotientMonotone(s - origin, t - origin, width); }
  }

  lemma QuotientMonotone(a: int, b: int, width: int)
    requires width > 0 && a <= b
    ensures a / width * width <= b / width * width
  {
    if a / width > b / width { MulAtLeast(a / width, b / width, width); }
    if a / width < b / width { MulAtLeast(b / width, a / width, width); }
  }

  // ------------------------------------------------------------------ the clock

  /** A local clock around one change of offset: a range of thirty days holds no more than one. */
  datatype Horloge = Horloge(change: int, avant: int, apres: int)

  /** The changes of Paris happen at 01:00 UTC, between one and two hours ahead. */
  predicate DeParis(h: Horloge) {
    && h.change % JOUR == HEURE
    && (h.avant == HEURE || h.avant == 2 * HEURE) && (h.apres == HEURE || h.apres == 2 * HEURE)
  }

  /** The wall time of an instant. */
  function Mur(h: Horloge, t: int): int {
    t + if t < h.change then h.avant else h.apres
  }

  /** The wall clock runs as the instants do on each side of the change, and jumps at it by the difference of the offsets. */
  lemma JumpsAtChange(h: Horloge, s: int, t: int)
    ensures t < h.change ==> Mur(h, t) - t == h.avant
    ensures t >= h.change ==> Mur(h, t) - t == h.apres
    ensures s < h.change <= t ==> Mur(h, t) - Mur(h, s) == (t - s) + (h.apres - h.avant)
  {
  }

  /** The instant of a wall time, in two tries. */
  function InstantDuMur(h: Horloge, mur: int): int {
    var essai := mur - (Mur(h, mur) - mur);
    mur - (Mur(h, essai) - essai)
  }

  /** The hour of wall time that a change repeats or skips. */
  predicate HeureDuChangement(h: Horloge, mur: int) {
    h.change + HEURE <= mur < h.change + 2 * HEURE
  }

  predicate Murale(width: int) {
    width == SIX_HEURES || width == JOUR
  }

  /** A bucket of six hours or a day never starts within the hour of a change. */
  lemma ChangeInsideBucket(h: Horloge, width: int, mur: int)
    requires DeParis(h) && Murale(width) && mur % width == 0
    ensures !HeureDuChangement(h, mur)
  {
    var c := h.change / JOUR;
    assert h.change == 24 * HEURE * c + HEURE;
    var k := if width == JOUR then 4 * (mur / JOUR) else mur / SIX_HEURES;
    assert mur == 6 * HEURE * k;
    assert !(24 * c + 2 <= 6 * k < 24 * c + 3);
  }

  /** Out of that hour, a wall time is that of one instant, and the conversion finds it. */
  lemma MurIsInverse(h: Horloge, mur: int)
    requires DeParis(h) && !HeureDuChangement(h, mur)
    ensures Mur(h, InstantDuMur(h, mur)) == mur
    ensures forall t :: Mur(h, t) == mur ==> t == InstantDuMur(h, mur)
  {
  }

  /** The greatest aligned time at or before another one. */
  lemma BinIsGreatest(width: int, x: int, t: int)
    requires width > 0 && x % width == 0 && x <= t
    ensures x <= DateBin(width, t, 0)
  {
    QuotientMonotone(x, t, width);
  }

  lemma BinIsAligned(width: int, t: int, origin: int)
    requires width > 0 && origin % width == 0
    ensures DateBin(width, t, origin) == DateBin(width, t, 0)
    ensures DateBin(width, t, origin) % width == 0
    ensures DateBin(width, t, origin) <= t < DateBin(width, t, origin) + width
  {
    var j := (t - origin) / width;
    var o := origin / width;
    assert (o + j) * width == o * width + j * width;
    ModUnique(t, o + j, (t - origin) % width, width);
    ModUnique((o + j) * width, o + j, 0, width);
  }

  /** The clock may turn back, no bucket does. */
  lemma BinsKeepOrder(h: Horloge, width: int, s: int, t: int)
    requires DeParis(h) && Murale(width) && s <= t
    ensures DateBin(width, Mur(h, s), 0) <= DateBin(width, Mur(h, t), 0)
  {
    var d := DateBin(width, Mur(h, s), 0);
    BinIsAligned(width, Mur(h, s), 0);
    ChangeInsideBucket(h, width, d);
    BinIsGreatest(width, d, Mur(h, t));
  }

  /** An aligned wall time is reached before an instant exactly when its own instant is. */
  lemma ReachedBefore(h: Horloge, width: int, mur: int, t: int)
    requires DeParis(h) && Murale(width) && mur % width == 0
    ensures InstantDuMur(h, mur) <= t <==> mur <= Mur(h, t)
  {
    ChangeInsideBucket(h, width, mur);
    MurIsInverse(h, mur);
  }

  // ------------------------------------------------------------------ the two grids

  /** Width of the buckets of a duration. */
  function BucketSecondsFor(duree: int): (width: int)
    ensures width > 0
  {
    if duree <= HEURE then 300 * SECONDE
    else if duree <= JOUR then 3_600 * SECONDE
    else if duree <= 7 * JOUR then 21_600 * SECONDE
    else 86_400 * SECONDE
  }

  /** Up to an hour five minutes, to a day an hour, to a week six hours, beyond a day. */
  lemma WidthsExactly(duree: int)
    ensures BucketSecondsFor(duree) == 300_000_000 <==> duree <= 3_600_000_000
    ensures BucketSecondsFor(duree) == 3_600_000_000 <==> 3_600_000_000 < duree <= 86_400_000_000
    ensures BucketSecondsFor(duree) == 21_600_000_000 <==> 86_400_000_000 < duree <= 604_800_000_000
    ensures BucketSecondsFor(duree) == 86_400_000_000 <==> duree > 604_800_000_000
  {
  }

  function Instants(h: Horloge, murs: seq<int>): (r: seq<int>)
    ensures |r| == |murs| && forall i :: 0 <= i < |murs| ==> r[i] == InstantDuMur(h, murs[i])
  {
    if murs == [] then [] else [InstantDuMur(h, murs[0])] + Instants(h, murs[1..])
  }

  /** `bucketExpr`: the bucket of a row. */
  function BucketExpr(h: Horloge, width: int, ts: int): int
    requires width > 0
  {
    if width >= SIX_HEURES then InstantDuMur(h, DateBin(width, Mur(h, ts), ORIGIN)) else DateBin(width, ts, ORIGIN)
  }

  /** `bucketSeriesSql`: the buckets of a range, the last one holding the microsecond before `to`. */
  function BucketSeriesSql(h: Horloge, width: int, from: int, to: int): seq<int>
    requires width > 0
  {
    if width >= SIX_HEURES then
      Instants(h, GenerateSeries(DateBin(width, Mur(h, from), ORIGIN), Mur(h, to - 1), width))
    else GenerateSeries(DateBin(width, from, ORIGIN), to - 1, width)
  }

  predicate Offered(width: int) {
    width == 300 * SECONDE || width == 3_600 * SECONDE || Murale(width)
  }

  lemma OriginIsAligned(width: int)
    requires Offered(width)
    ensures ORIGIN % width == 0
  {
    if width == 300 * SECONDE { ModUnique(ORIGIN, 10_957 * 24 * 12, 0, width); }
    else if width == 3_600 * SECONDE { ModUnique(ORIGIN, 10_957 * 24, 0, width); }
    else if width == SIX_HEURES { ModUnique(ORIGIN, 10_957 * 4, 0, width); }
  }

  /** The next wall time of the grid is drawn exactly when its instant comes before `to`. */
  lemma Unroll(h: Horloge, murs: seq<int>, mur: int, width: int, to: int)
    requires Murale(width) && DeParis(h) && mur % width == 0
    ensures InstantDuMur(h, mur) < to ==>
              murs + GenerateSeries(mur, Mur(h, to - 1), width) == (murs + [mur]) + GenerateSeries(mur + width, Mur(h, to - 1), width)
    ensures InstantDuMur(h, mur) >= to ==> GenerateSeries(mur, Mur(h, to - 1), width) == []
    ensures (mur + width) % width == 0
  {
    ReachedBefore(h, width, mur, to - 1);
    ModUnique(mur + width, mur / width + 1, 0, width);
  }

  lemma InstantsAppend(h: Horloge, murs: seq<int>, mur: int)
    ensures Instants(h, murs + [mur]) == Instants(h, murs) + [InstantDuMur(h, mur)]
  {
  }

  /** The loop of the buckets cut on the wall clock. */
  method WallStarts(h: Horloge, width: int, from: int, to: int) returns (starts: seq<int>)
    requires Murale(width) && DeParis(h)
    ensures starts == Take(BucketSeriesSql(h, width, from, to), MAX_POINTS + 1)
  {
    starts := [];
    var mur := Mur(h, from) / width * width;
    ghost var all := GenerateSeries(mur, Mur(h, to - 1), width);
    ghost var murs: seq<int> := [];
    FirstBucket(width, Mur(h, from), mur);
    while |starts| <= MAX_POINTS
      invariant mur % width == 0 && |starts| <= MAX_POINTS + 1
      invariant starts == Instants(h, murs) && all == murs + GenerateSeries(mur, Mur(h, to - 1), width)
      decreases MAX_POINTS + 1 - |starts|
    {
      var start := InstantDuMur(h, mur);
      Unroll(h, murs, mur, width, to);
      InstantsAppend(h, murs, mur);
      if start >= to { break; }
      murs := murs + [mur];
      starts := starts + [start];
      mur := mur + width;
    }
    InstantsPrefix(h, murs, all);
  }

  /** The loop of the buckets cut on UTC. */
  method UtcStarts(width: int, from: int, to: int) returns (starts: seq<int>)
    requires Offered(width)
    ensures starts == Take(GenerateSeries(DateBin(width, from, ORIGIN), to - 1, width), MAX_POINTS + 1)
  {
    starts := [];
    var start := from / width * width;
    FirstBucket(width, from, start);
    ghost var all := GenerateSeries(start, to - 1, width);
    while start < to && |starts| <= MAX_POINTS
      invariant |starts| <= MAX_POINTS + 1
      invariant all == starts + GenerateSeries(start, to - 1, width)
      decreases MAX_POINTS + 1 - |starts|
    {
      starts := starts + [start];
      start := start + width;
    }
  }

  /** `bucketStarts`: the buckets the pages draw are those of the database, in order, cut after 301. */
  method BucketStarts(h: Horloge, width: int, from: int, to: int) returns (starts: seq<int>)
    requires Offered(width) && DeParis(h)
    ensures starts == Take(BucketSeriesSql(h, width, from, to), MAX_POINTS + 1)
  {
    if width >= SIX_HEURES {
      starts := WallStarts(h, width, from, to);
    } else {
      starts := UtcStarts(width, from, to);
    }
  }

  lemma FirstBucket(width: int, t: int, start: int)
    requires Offered(width) && start == t / width * width
    ensures start == DateBin(width, t, ORIGIN) && start % width == 0
  {
    OriginIsAligned(width);
    BinIsAligned(width, t, ORIGIN);
  }

  lemma InstantsPrefix(h: Horloge, murs: seq<int>, all: seq<int>)
    requires murs <= all
    ensures Instants(h, murs) == Instants(h, all)[..|murs|]
  {
  }

  // ------------------------------------------------------------------ what the grid holds

  lemma {:induction false} SeriesLength(start: int, stop: int, width: int)
    requires width > 0
    ensures var n := |GenerateSeries(start, stop, width)|; n > 0 ==> (n - 1) * width <= stop - start
    decreases stop - start
  {
    if start <= stop {
      SeriesLength(start + width, stop, width);
      var n := |GenerateSeries(start + width, stop, width)|;
      assert n * width == (n - 1) * width + width;
    }
  }

  /** A range of at most thirty days has no more than 300 buckets: the pages draw the whole grid of the database. */
  lemma GridFits(h: Horloge, from: int, to: int)
    requires DeParis(h) && to - from <= RANGE_MAX
    ensures |BucketSeriesSql(h, BucketSecondsFor(to - from), from, to)| <= MAX_POINTS
  {
    var width := BucketSecondsFor(to - from);
    OriginIsAligned(width);
    var murale := width >= SIX_HEURES;
    var first := if murale then Mur(h, from) else from;
    var last := if murale then Mur(h, to - 1) else to - 1;
    BinIsAligned(width, first, ORIGIN);
    SeriesLength(DateBin(width, first, ORIGIN), last, width);
    var n := |GenerateSeries(DateBin(width, first, ORIGIN), last, width)|;
    assert last - first <= to - from + HEURE;
    if n > MAX_POINTS { MulMonotone(MAX_POINTS, n - 1, width); }
  }

  lemma MulMonotone(a: int, b: int, width: int)
    requires a <= b && width > 0
    ensures a * width <= b * width
  {
    assert (b - a) * width >= 0;
  }

  ghost predicate Increasing(s: seq<int>) {
    forall i, j :: 0 <= i < j < |s| ==> s[i] < s[j]
  }

  lemma {:induction false} SeriesIncreases(start: int, stop: int, width: int)
    requires width > 0
    ensures Increasing(GenerateSeries(start, stop, width))
    ensures forall x :: x in GenerateSeries(start, stop, width) ==> start <= x
    decreases stop - start
  {
    if start <= stop {
      SeriesIncreases(start + width, stop, width);
      var rest := GenerateSeries(start + width, stop, width);
      var all := [start] + rest;
      forall i, j | 0 <= i < j < |all| ensures all[i] < all[j] {
        assert all[j] == rest[j - 1] && all[j] in rest;
        if i > 0 { assert all[i] == rest[i - 1]; }
      }
    }
  }

  /** The instants of aligned wall times come in the order of the wall. */
  lemma InstantsIncrease(h: Horloge, width: int, murs: seq<int>)
    requires DeParis(h) && Murale(width) && Increasing(murs) && forall m :: m in murs ==> m % width == 0
    ensures Increasing(Instants(h, murs))
  {
    forall i, j | 0 <= i < j < |murs| ensures Instants(h, murs)[i] < Instants(h, murs)[j] {
      assert murs[i] in murs && murs[j] in murs;
      ChangeInsideBucket(h, width, murs[i]);
      ChangeInsideBucket(h, width, murs[j]);
      MurIsInverse(h, murs[i]);
      MurIsInverse(h, murs[j]);
      ReachedBefore(h, width, murs[j], InstantDuMur(h, murs[i]));
    }
  }

  /** The wall side of the grid: aligned, increasing, and holding the bucket of every wall time that is not out of order. */
  lemma WallGrid(width: int, first: int, last: int, x: int)
    requires Offered(width)
    ensures var start := DateBin(width, first, ORIGIN);
            var grid := GenerateSeries(start, last, width);
            && Increasing(grid) && (forall m :: m in grid ==> m % width == 0)
            && (DateBin(width, x, ORIGIN) in grid <==> start <= DateBin(width, x, ORIGIN) <= last)
  {
    OriginIsAligned(width);
    BinIsAligned(width, first, ORIGIN);
    BinIsAligned(width, x, ORIGIN);
    var start := DateBin(width, first, ORIGIN);
    SeriesIncreases(start, last, width);
    SeriesMembers(start, last, width, DateBin(width, x, ORIGIN));
    BinsAlign(width, first, x, ORIGIN);
    forall m | m in GenerateSeries(start, last, width) ensures m % width == 0 {
      SeriesMembers(start, last, width, m);
      ModUnique(m, start / width + (m - start) / width, 0, width);
    }
  }

  lemma WallEnds(width: int, first: int, last: int)
    requires Offered(width) && DateBin(width, first, ORIGIN) <= DateBin(width, last, ORIGIN)
    ensures var grid := GenerateSeries(DateBin(width, first, ORIGIN), last, width);
            && grid != [] && grid[0] == DateBin(width, first, ORIGIN)
            && grid[|grid| - 1] == DateBin(width, last, ORIGIN)
  {
    var start, end := DateBin(width, first, ORIGIN), DateBin(width, last, ORIGIN);
    OriginIsAligned(width);
    BinIsAligned(width, last, ORIGIN);
    WallGrid(width, first, last, last);
    var grid := GenerateSeries(start, last, width);
    var final := grid[|grid| - 1];
    assert final in grid && final % width == 0;
    SeriesMembers(start, last, width, final);
    BinIsGreatest(width, final, last);
    var i :| 0 <= i < |grid| && grid[i] == end;
  }

  lemma BucketsKeepOrder(h: Horloge, width: int, s: int, t: int)
    requires DeParis(h) && Murale(width) && s <= t
    ensures DateBin(width, Mur(h, s), ORIGIN) <= DateBin(width, Mur(h, t), ORIGIN)
  {
    OriginIsAligned(width);
    BinsKeepOrder(h, width, s, t);
    BinIsAligned(width, Mur(h, s), ORIGIN);
    BinIsAligned(width, Mur(h, t), ORIGIN);
  }

  /** A grid goes from the bucket of its first time to that of its last, and holds what lies between. */
  lemma GridOf(width: int, first: int, last: int, x: int, grid: seq<int>)
    requires Offered(width) && grid == GenerateSeries(DateBin(width, first, ORIGIN), last, width)
    requires DateBin(width, first, ORIGIN) <= DateBin(width, x, ORIGIN) <= DateBin(width, last, ORIGIN)
    ensures Increasing(grid) && forall m :: m in grid ==> m % width == 0
    ensures DateBin(width, x, ORIGIN) in grid
    ensures grid[0] == DateBin(width, first, ORIGIN) && grid[|grid| - 1] == DateBin(width, last, ORIGIN)
  {
    OriginIsAligned(width);
    BinIsAligned(width, last, ORIGIN);
    WallGrid(width, first, last, x);
    WallEnds(width, first, last);
  }

  lemma UtcGridCovers(width: int, from: int, to: int, ts: int)
    requires Offered(width) && from <= ts < to
    ensures var grid := GenerateSeries(DateBin(width, from, ORIGIN), to - 1, width);
            && DateBin(width, ts, ORIGIN) in grid && Increasing(grid)
            && grid[0] == DateBin(width, from, ORIGIN) && grid[|grid| - 1] == DateBin(width, to - 1, ORIGIN)
  {
    BinsAlign(width, from, ts, ORIGIN);
    BinsAlign(width, ts, to - 1, ORIGIN);
    GridOf(width, from, to - 1, ts, GenerateSeries(DateBin(width, from, ORIGIN), to - 1, width));
  }

  lemma WallGridCovers(h: Horloge, width: int, from: int, to: int, ts: int)
    requires Murale(width) && DeParis(h) && from <= ts < to
    ensures var grid := BucketSeriesSql(h, width, from, to);
            && BucketExpr(h, width, ts) in grid && Increasing(grid)
            && grid[0] == BucketExpr(h, width, from) && grid[|grid| - 1] == BucketExpr(h, width, to - 1)
  {
    var murs := GenerateSeries(DateBin(width, Mur(h, from), ORIGIN), Mur(h, to - 1), width);
    BucketsKeepOrder(h, width, from, ts);
    BucketsKeepOrder(h, width, ts, to - 1);
    GridOf(width, Mur(h, from), Mur(h, to - 1), Mur(h, ts), murs);
    InstantsIncrease(h, width, murs);
    InstantsHold(h, murs, DateBin(width, Mur(h, ts), ORIGIN));
  }

  lemma InstantsHold(h: Horloge, murs: seq<int>, m: int)
    requires m in murs
    ensures InstantDuMur(h, m) in Instants(h, murs)
  {
    var i :| 0 <= i < |murs| && murs[i] == m;
    assert Instants(h, murs)[i] == InstantDuMur(h, m);
  }

  /**
   Every row of a range falls in a bucket of its grid, changes of clock included; the buckets come in
   strictly increasing order, the first is that of `from` and the last that of the microsecond before `to`.
   */
  lemma GridCoversWindow(h: Horloge, width: int, from: int, to: int, ts: int)
    requires Offered(width) && DeParis(h) && from <= ts < to
    ensures var grid := BucketSeriesSql(h, width, from, to);
            && BucketExpr(h, width, ts) in grid && Increasing(grid)
            && grid[0] == BucketExpr(h, width, from) && grid[|grid| - 1] == BucketExpr(h, width, to - 1)
  {
    if width >= SIX_HEURES {
      WallGridCovers(h, width, from, to, ts);
    } else {
      UtcGridCovers(width, from, to, ts);
    }
  }
}
