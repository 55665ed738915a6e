/**
 What the console does with the rows of a hybrid read: it cuts the window, merges the buckets of the
 two branches, and reads a percentile on the merged distribution.
 */
module HybridFusion {
  import opened Basics
  import opened QueryContract
  import opened Conditions
  import opened RumTables
  import opened HybridRead
  import opened Sorting

  // ------------------------------------------------------------------ the window, in milliseconds

  const GRAIN_MS: int := 3_600_000

  datatype Fenetre = Inutilisable | Heures(agregatFrom: int, agregatTo: int)

  function FenetreHybride(from: int, to: int, marque: Option<int>): Fenetre {
    if marque.None? then Inutilisable
    else
      var plein := -((-from) / GRAIN_MS) * GRAIN_MS;
      var couvert := Min(marque.value / GRAIN_MS * GRAIN_MS, to / GRAIN_MS * GRAIN_MS);
      if couvert <= plein then Inutilisable else Heures(plein, couvert)
  }

  predicate DansAgregat(ts: int, fenetre: Fenetre) {
    fenetre.Heures? && fenetre.agregatFrom <= ts < fenetre.agregatTo
  }

  lemma HourInMs(x: int)
    ensures HourOf(x * 1000) == x / GRAIN_MS * GRAIN_MS * 1000
    ensures CeilHour(x * 1000) == -((-x) / GRAIN_MS) * GRAIN_MS * 1000
  {
    assert x * 1000 == (x / GRAIN_MS) * HOUR + (x % GRAIN_MS) * 1000;
    assert (-x) * 1000 == ((-x) / GRAIN_MS) * HOUR + ((-x) % GRAIN_MS) * 1000;
    SameHour(x * 1000, x / GRAIN_MS * HOUR);
    if x % GRAIN_MS != 0 {
      SameHour(x * 1000, (-((-x) / GRAIN_MS) - 1) * HOUR);
    }
  }

  lemma SameHour(ts: int, h: int)
    requires h % HOUR == 0 && h <= ts < h + HOUR
    ensures HourOf(ts) == h
  {
    if h < HourOf(ts) { HoursApart(h, HourOf(ts)); }
    if HourOf(ts) < h { HoursApart(HourOf(ts), h); }
  }

  /** The watermark of the tables, as the console reads it: to the millisecond. */
  function MarqueOf(db: Db): Option<int> {
    if db.state.Some? then Some(db.state.value.refreshedAt / 1000) else None
  }

  /** The window the console cuts in milliseconds is the window the statement cuts in microseconds. */
  lemma FenetreIsCadre(db: Db, q: Question, from: int, to: int, ts: int)
    requires q.from == from * 1000 && q.to == to * 1000 && from >= 0
    ensures DansAgregat(ts, FenetreHybride(from, to, MarqueOf(db))) <==> Hb(q) <= ts * 1000 < Hw(db, q)
  {
    HourInMs(from);
    HourInMs(to);
    if db.state.Some? {
      var r := db.state.value.refreshedAt;
      HourInMs(r / 1000);
      SameHour(r, HourOf(r / 1000 * 1000));
    } else {
      assert HourOf(0) == 0;
    }
  }

  // ------------------------------------------------------------------ merging buckets

  /** A row as received: a number that does not read as finite is `None`. */
  datatype Ligne = Ligne(bucket: Option<int>, observed: Option<int>)

  datatype Seau = Seau(bucket: int, poids: int)

  predicate Usable(l: Ligne) {
    l.bucket.Some? && l.observed.Some? && l.observed.value > 0
  }

  /** The weight a list of rows gives to the buckets up to `b`. */
  function UpTo(lignes: seq<Ligne>, b: int): nat {
    if lignes == [] then 0
    else (if Usable(lignes[0]) && lignes[0].bucket.value <= b then lignes[0].observed.value else 0) + UpTo(lignes[1..], b)
  }

  function Weight(s: Seau, b: int): int {
    if s.bucket <= b then s.poids else 0
  }

  function Cumul(seaux: seq<Seau>, b: int): int {
    if seaux == [] then 0 else Weight(seaux[0], b) + Cumul(seaux[1..], b)
  }

  /** A distribution: each bucket once, with a positive weight. */
  ghost predicate Distribution(seaux: seq<Seau>) {
    && (forall i, j :: 0 <= i < j < |seaux| ==> seaux[i].bucket != seaux[j].bucket)
    && (forall i :: 0 <= i < |seaux| ==> seaux[i].poids > 0)
  }

  lemma {:induction false} UpToAppend(lignes: seq<Ligne>, l: Ligne, b: int)
    ensures UpTo(lignes + [l], b) == UpTo(lignes, b) + UpTo([l], b)
  {
    if lignes == [] {
      assert lignes + [l] == [l];
    } else {
      assert (lignes + [l])[1..] == lignes[1..] + [l];
      UpToAppend(lignes[1..], l, b);
    }
  }

  lemma {:induction false} CumulAppend(seaux: seq<Seau>, s: Seau, b: int)
    ensures Cumul(seaux + [s], b) == Cumul(seaux, b) + Weight(s, b)
  {
    if seaux == [] {
      assert seaux + [s] == [s];
    } else {
      assert (seaux + [s])[1..] == seaux[1..] + [s];
      CumulAppend(seaux[1..], s, b);
    }
  }

  lemma {:induction false} CumulUpdate(seaux: seq<Seau>, i: nat, s: Seau, b: int)
    requires i < |seaux|
    ensures Cumul(seaux[i := s], b) == Cumul(seaux, b) - Weight(seaux[i], b) + Weight(s, b)
  {
    if i == 0 {
      assert seaux[0 := s][1..] == seaux[1..];
    } else {
      assert seaux[i := s][1..] == seaux[1..][i - 1 := s];
      CumulUpdate(seaux[1..], i - 1, s, b);
    }
  }

  /** The position of a bucket among those met so far. */
  method Position(seaux: seq<Seau>, bucket: int) returns (i: nat)
    ensures i <= |seaux|
    ensures i < |seaux| ==> seaux[i].bucket == bucket
    ensures i == |seaux| ==> forall j :: 0 <= j < |seaux| ==> seaux[j].bucket != bucket
  {
    i := 0;
    while i < |seaux| && seaux[i].bucket != bucket
      invariant i <= |seaux|
      invariant forall j :: 0 <= j < i ==> seaux[j].bucket != bucket
    {
      i := i + 1;
    }
  }

  /** Rows that do not read as positive numbers are dropped, the others add up bucket by bucket. */
  method FusionnerSeaux(lignes: seq<Ligne>) returns (par: seq<Seau>)
    ensures Distribution(par)
    ensures forall b :: Cumul(par, b) == UpTo(lignes, b)
  {
    par := [];
    for n := 0 to |lignes|
      invariant Distribution(par)
      invariant forall b :: Cumul(par, b) == UpTo(lignes[..n], b)
    {
      var ligne := lignes[n];
      ghost var before := par;
      if Usable(ligne) {
        var bucket, poids := ligne.bucket.value, ligne.observed.value;
        var i := Position(par, bucket);
        if i < |par| {
          forall b { CumulUpdate(par, i, Seau(bucket, par[i].poids + poids), b); }
          par := par[i := Seau(bucket, par[i].poids + poids)];
        } else {
          forall b { CumulAppend(par, Seau(bucket, poids), b); }
          par := par + [Seau(bucket, poids)];
        }
      }
      assert lignes[..n + 1] == lignes[..n] + [ligne];
      forall b ensures Cumul(par, b) == UpTo(lignes[..n + 1], b) {
        UpToAppend(lignes[..n], ligne, b);
        assert Cumul(par, b) == Cumul(before, b) + if Usable(ligne) then Weight(Seau(ligne.bucket.value, ligne.observed.value), b) else 0;
      }
    }
    assert lignes[..|lignes|] == lignes;
  }

  function Total(seaux: seq<Seau>): int {
    if seaux == [] then 0 else seaux[0].poids + Total(seaux[1..])
  }

  lemma {:induction false} CumulConcat(a: seq<Seau>, c: seq<Seau>, b: int)
    ensures Cumul(a + c, b) == Cumul(a, b) + Cumul(c, b)
  {
    if a == [] {
      assert a + c == c;
    } else {
      assert (a + c)[1..] == a[1..] + c;
      CumulConcat(a[1..], c, b);
    }
  }

  lemma {:induction false} CumulAllOrNone(seaux: seq<Seau>, b: int)
    ensures (forall s :: s in seaux ==> s.bucket <= b) ==> Cumul(seaux, b) == Total(seaux)
    ensures (forall s :: s in seaux ==> s.bucket > b) ==> Cumul(seaux, b) == 0
  {
    if seaux != [] {
      CumulAllOrNone(seaux[1..], b);
    }
  }

  predicate BucketLe(a: Seau, b: Seau) {
    a.bucket <= b.bucket
  }

  lemma {:induction false} CumulInsert(x: Seau, s: seq<Seau>, b: int)
    ensures Cumul(Insert(x, s, BucketLe), b) == Weight(x, b) + Cumul(s, b)
    ensures Total(Insert(x, s, BucketLe)) == x.poids + Total(s)
  {
    if s != [] && !BucketLe(x, s[0]) {
      CumulInsert(x, s[1..], b);
    } else if s != [] {
      assert ([x] + s)[1..] == s;
    }
  }

  lemma {:induction false} CumulSort(s: seq<Seau>, b: int)
    ensures Cumul(Sort(s, BucketLe), b) == Cumul(s, b)
    ensures Total(Sort(s, BucketLe)) == Total(s)
  {
    if s != [] {
      CumulSort(s[1..], b);
      CumulInsert(s[0], Sort(s[1..], BucketLe), b);
    }
  }

  lemma SortedBuckets(seaux: seq<Seau>)
    requires Distribution(seaux)
    ensures var tries := Sort(seaux, BucketLe);
            Distribution(tries) && forall i, j :: 0 <= i < j < |tries| ==> tries[i].bucket < tries[j].bucket
  {
    var tries := Sort(seaux, BucketLe);
    SortSorts(seaux, BucketLe);
    SortDistinct(seaux, BucketLe);
    SortMembers(seaux, BucketLe);
    forall i, j | 0 <= i < j < |tries| ensures tries[i].bucket < tries[j].bucket {
      assert tries[i] in seaux && tries[j] in seaux && tries[i] != tries[j];
    }
    forall i | 0 <= i < |tries| ensures tries[i].poids > 0 { assert tries[i] in seaux; }
  }

  /** Weights up to the bucket of rank `i`, and strictly below it, in a list sorted by bucket. */
  lemma PrefixIsCumul(tries: seq<Seau>, i: nat)
    requires i < |tries| && forall x, y :: 0 <= x < y < |tries| ==> tries[x].bucket < tries[y].bucket
    ensures Cumul(tries, tries[i].bucket) == Total(tries[..i]) + tries[i].poids
    ensures Cumul(tries, tries[i].bucket - 1) == Total(tries[..i])
  {
    var low, high := tries[..i], tries[i..];
    assert tries == low + high && high[0] == tries[i];
    forall b | b == tries[i].bucket - 1 || b == tries[i].bucket ensures Cumul(tries, b) == Total(low) + Cumul(high, b) {
      CumulConcat(low, high, b);
      CumulAllOrNone(low, b);
    }
    CumulAllOrNone(high, tries[i].bucket - 1);
    CumulAllOrNone(high[1..], tries[i].bucket);
  }

  lemma {:induction false} TotalAppend(seaux: seq<Seau>, s: Seau)
    ensures Total(seaux + [s]) == Total(seaux) + s.poids
  {
    if seaux == [] {
      assert seaux + [s] == [s];
    } else {
      assert (seaux + [s])[1..] == seaux[1..] + [s];
      TotalAppend(seaux[1..], s);
    }
  }

  lemma {:induction false} TotalPositive(seaux: seq<Seau>)
    requires Distribution(seaux)
    ensures Total(seaux) >= |seaux|
  {
    if seaux != [] {
      assert Distribution(seaux[1..]);
      TotalPositive(seaux[1..]);
    }
  }

  lemma RankCumul(seaux: seq<Seau>, tries: seq<Seau>, i: nat)
    requires tries == Sort(seaux, BucketLe) && i < |tries|
    requires forall x, y :: 0 <= x < y < |tries| ==> tries[x].bucket < tries[y].bucket
    ensures Cumul(seaux, tries[i].bucket) == Total(tries[..i + 1])
    ensures Cumul(seaux, tries[i].bucket - 1) == Total(tries[..i])
    ensures Total(tries[..i + 1]) == Total(tries[..i]) + tries[i].poids
  {
    RankOf(tries, i);
    CumulSort(seaux, tries[i].bucket);
    CumulSort(seaux, tries[i].bucket - 1);
  }

  lemma RankOf(tries: seq<Seau>, i: nat)
    requires i < |tries| && forall x, y :: 0 <= x < y < |tries| ==> tries[x].bucket < tries[y].bucket
    ensures Cumul(tries, tries[i].bucket) == Total(tries[..i + 1])
    ensures Cumul(tries, tries[i].bucket - 1) == Total(tries[..i])
    ensures Total(tries[..i + 1]) == Total(tries[..i]) + tries[i].poids
  {
    PrefixIsCumul(tries, i);
    assert tries[..i + 1] == tries[..i] + [tries[i]];
    TotalAppend(tries[..i], tries[i]);
  }

  /** The whole weight reaches any share of it. */
  lemma WholeReaches(total: int, pn: int, pd: int)
    requires total > 0 && 0 < pn <= pd
    ensures 0 * pd < total * pn <= total * pd
  {
    assert total * (pd - pn) >= 0;
    assert total * pn > 0;
  }

  /** The percentile's bucket (its value is the bucket's geometric middle), `None` on an empty distribution. */
  method PercentileDepuisSeaux(seaux: seq<Seau>, pn: int, pd: int) returns (r: Option<int>)
    requires Distribution(seaux) && 0 < pn <= pd
    ensures r.None? <==> seaux == []
    ensures r.Some? ==>
              Cumul(seaux, r.value) * pd >= Total(seaux) * pn && Cumul(seaux, r.value - 1) * pd < Total(seaux) * pn
  {
    TotalPositive(seaux);
    var total := Total(seaux);
    if total <= 0 {
      return None;
    }
    var tries := Sort(seaux, BucketLe);
    var cible := total * pn;
    WholeReaches(total, pn, pd);
    SortedBuckets(seaux);
    CumulSort(seaux, 0);
    assert tries[..|tries|] == tries;
    var cumul, i := 0, 0;
    while i < |tries|
      invariant i <= |tries| && cumul == Total(tries[..i]) && cumul * pd < cible
    {
      RankCumul(seaux, tries, i);
      cumul := cumul + tries[i].poids;
      if cumul * pd >= cible {
        return Some(tries[i].bucket);
      }
      i := i + 1;
    }
    // In exact arithmetic the last bucket has reached the share: the fallback on rounding is not needed.
    r := None;
    assert false;
  }

  // ------------------------------------------------------------------ the rows of the statement

  datatype HistoRow = HistoRow(fromAggregate: bool, g0: Option<string>, bucket: nat, observed: nat)

  ghost function AggregateRows(db: Db, q: Question): set<HistoRow> {
    set k | k in AggregateCells(db, q) ::
      HistoRow(true, CellGroup(q, k), k.bucket, AggregateCount(db, q, CellGroup(q, k), k.bucket))
  }

  ghost function BrutAll(db: Db, q: Question): set<nat> {
    set id | id in db.metrics && InBrut(db, q, id, db.metrics[id])
  }

  ghost function BrutRow(db: Db, q: Question, m: Metric): HistoRow {
    HistoRow(false, GroupOf(db, q, m), m.bucket, |BrutIds(db, q, GroupOf(db, q, m), m.bucket)|)
  }

  ghost function BrutRows(db: Db, q: Question): set<HistoRow> {
    set id | id in BrutAll(db, q) :: BrutRow(db, q, db.metrics[id])
  }

  ghost function ResultRows(db: Db, q: Question): set<HistoRow> {
    AggregateRows(db, q) + BrutRows(db, q)
  }

  /** The rows as they arrive: each once, in any order. */
  ghost predicate Lists(lines: seq<HistoRow>, db: Db, q: Question) {
    Distinct(lines) && forall r :: r in lines <==> r in ResultRows(db, q)
  }

  function LigneOf(r: HistoRow): Ligne {
    Ligne(Some(r.bucket), Some(r.observed))
  }

  function Lignes(rows: seq<HistoRow>): seq<Ligne> {
    if rows == [] then [] else [LigneOf(rows[0])] + Lignes(rows[1..])
  }

  /** The rows of one group, in the order they came (`parGroupe`). */
  function DuGroupe(rows: seq<HistoRow>, g: Option<string>): seq<HistoRow> {
    if rows == [] then []
    else (if rows[0].g0 == g then [rows[0]] else []) + DuGroupe(rows[1..], g)
  }

  // ------------------------------------------------------------------ what a row stands for

  ghost function Represents(db: Db, q: Question, r: HistoRow): set<nat> {
    if r.fromAggregate then CoveredIds(db, q, r.g0, r.bucket) else BrutIds(db, q, r.g0, r.bucket)
  }

  ghost predicate Exactly(db: Db, q: Question) {
    Sound(db) && Clean(db) && Answerable(q) && Decided(q.filters)
  }

  lemma RowCounts(db: Db, q: Question, r: HistoRow)
    requires Exactly(db, q) && r in ResultRows(db, q)
    ensures r.observed == |Represents(db, q, r)|
  {
    if r.fromAggregate {
      AggregateCountsCovered(db, q, r.g0, r.bucket);
    }
  }

  lemma RowsDisjoint(db: Db, q: Question, r: HistoRow, s: HistoRow)
    requires Exactly(db, q) && r in ResultRows(db, q) && s in ResultRows(db, q) && r != s
    ensures Represents(db, q, r) !! Represents(db, q, s)
  {
    RowCounts(db, q, r);
    RowCounts(db, q, s);
  }

  ghost function IdsUpTo(db: Db, q: Question, rows: seq<HistoRow>, b: int): set<nat> {
    set id | id in db.metrics && exists r :: r in rows && r.bucket <= b && id in Represents(db, q, r)
  }

  lemma FirstRowIds(db: Db, q: Question, r: HistoRow, rest: seq<HistoRow>, b: int)
    ensures IdsUpTo(db, q, [r] + rest, b) ==
              (if r.bucket <= b then Represents(db, q, r) else {}) + IdsUpTo(db, q, rest, b)
  {
    var rows := [r] + rest;
    forall id | id in IdsUpTo(db, q, rest, b) ensures id in IdsUpTo(db, q, rows, b) {
      var s :| s in rest && s.bucket <= b && id in Represents(db, q, s);
      assert s in rows;
    }
    if r.bucket <= b {
      assert r in rows;
      forall id | id in Represents(db, q, r) ensures id in IdsUpTo(db, q, rows, b) {}
    }
  }

  lemma FirstRowApart(db: Db, q: Question, r: HistoRow, rest: seq<HistoRow>, b: int)
    requires Exactly(db, q) && r in ResultRows(db, q)
    requires forall s :: s in rest ==> s in ResultRows(db, q) && s != r
    ensures Represents(db, q, r) !! IdsUpTo(db, q, rest, b)
  {
    forall id | id in IdsUpTo(db, q, rest, b) ensures id !in Represents(db, q, r) {
      var s :| s in rest && s.bucket <= b && id in Represents(db, q, s);
      RowsDisjoint(db, q, r, s);
    }
  }

  lemma FirstLigne(r: HistoRow, rest: seq<HistoRow>, b: int)
    ensures UpTo(Lignes([r] + rest), b) == (if r.bucket <= b then r.observed else 0) + UpTo(Lignes(rest), b)
  {
    assert ([r] + rest)[1..] == rest;
  }

  lemma {:induction false} RowsAddUp(db: Db, q: Question, rows: seq<HistoRow>, b: int)
    requires Exactly(db, q) && Distinct(rows) && forall r :: r in rows ==> r in ResultRows(db, q)
    ensures UpTo(Lignes(rows), b) == |IdsUpTo(db, q, rows, b)|
  {
    if rows == [] {
      assert IdsUpTo(db, q, rows, b) == {};
    } else {
      var r, rest := rows[0], rows[1..];
      assert rows == [r] + rest;
      RowsAddUp(db, q, rest, b);
      RowCounts(db, q, r);
      FirstRowIds(db, q, r, rest, b);
      FirstRowApart(db, q, r, rest, b);
      FirstLigne(r, rest, b);
    }
  }

  // ------------------------------------------------------------------ the rows stand for the population

  /** The population of the raw read, up to a bucket: in one group, or in all of them. */
  ghost function Population(db: Db, q: Question, g: Option<Option<string>>, b: int): set<nat> {
    set id | id in db.metrics && InPopulation(db, q, db.metrics[id])
             && (g.None? || GroupOf(db, q, db.metrics[id]) == g.value) && db.metrics[id].bucket <= b
  }

  function Selected(lines: seq<HistoRow>, g: Option<Option<string>>): seq<HistoRow> {
    if g.None? then lines else DuGroupe(lines, g.value)
  }

  lemma {:induction false} DuGroupeRows(rows: seq<HistoRow>, g: Option<string>)
    ensures forall r :: r in DuGroupe(rows, g) <==> r in rows && r.g0 == g
    ensures Distinct(rows) ==> Distinct(DuGroupe(rows, g))
  {
    if rows != [] {
      DuGroupeRows(rows[1..], g);
      if Distinct(rows) {
        assert rows[0] !in rows[1..];
      }
    }
  }

  /** Every measure of the population is in exactly one row's share, that of its group and bucket. */
  lemma MeasureHasRow(db: Db, q: Question, id: nat)
    requires Exactly(db, q) && id in db.metrics && InPopulation(db, q, db.metrics[id])
    ensures exists r :: r in ResultRows(db, q) && r.g0 == GroupOf(db, q, db.metrics[id])
                        && r.bucket == db.metrics[id].bucket && id in Represents(db, q, r)
  {
    var m := db.metrics[id];
    var g, b := GroupOf(db, q, m), m.bucket;
    BranchesPartition(db, q, g, b);
    if id in BrutIds(db, q, g, b) {
      assert BrutRow(db, q, m) in BrutRows(db, q);
    } else {
      CoveredMeasureInCells(db, q, g, b, id);
      var k := CellOf(db, m);
      assert HistoRow(true, CellGroup(q, k), k.bucket, AggregateCount(db, q, CellGroup(q, k), k.bucket)) in AggregateRows(db, q);
    }
  }

  lemma RowMeasures(db: Db, q: Question, r: HistoRow, id: nat)
    requires Exactly(db, q) && id in Represents(db, q, r)
    ensures id in db.metrics && InPopulation(db, q, db.metrics[id])
    ensures GroupOf(db, q, db.metrics[id]) == r.g0 && db.metrics[id].bucket == r.bucket
  {
    BranchesPartition(db, q, r.g0, r.bucket);
  }

  /** Whatever their order, the rows of a group (or all of them) weigh what the raw measures weigh. */
  lemma RowsArePopulation(db: Db, q: Question, lines: seq<HistoRow>, g: Option<Option<string>>, b: int)
    requires Exactly(db, q) && Lists(lines, db, q)
    ensures UpTo(Lignes(Selected(lines, g)), b) == |Population(db, q, g, b)|
  {
    var rows := Selected(lines, g);
    if g.Some? { DuGroupeRows(lines, g.value); }
    RowsAddUp(db, q, rows, b);
    forall id | id in Population(db, q, g, b) ensures id in IdsUpTo(db, q, rows, b) { MeasureHasRow(db, q, id); }
    forall id | id in IdsUpTo(db, q, rows, b) ensures id in Population(db, q, g, b) {
      var r :| r in rows && r.bucket <= b && id in Represents(db, q, r);
      RowMeasures(db, q, r, id);
    }
    assert IdsUpTo(db, q, rows, b) == Population(db, q, g, b);
  }

  ghost function WholePopulation(db: Db, q: Question, g: Option<Option<string>>): set<nat> {
    set id | id in db.metrics && InPopulation(db, q, db.metrics[id])
             && (g.None? || GroupOf(db, q, db.metrics[id]) == g.value)
  }

  lemma {:induction false} BucketBound(seaux: seq<Seau>) returns (b: int)
    ensures forall s :: s in seaux ==> s.bucket <= b
  {
    b := 0;
    if seaux != [] {
      b := BucketBound(seaux[1..]);
      b := Max(b, seaux[0].bucket);
    }
  }

  /** Past every bucket, the merged distribution weighs the whole population. */
  lemma TotalIsPopulation(db: Db, q: Question, par: seq<Seau>, g: Option<Option<string>>)
    requires forall b :: Cumul(par, b) == |Population(db, q, g, b)|
    ensures Total(par) == |WholePopulation(db, q, g)|
  {
    var b := BucketBound(par);
    var far := Max(b, Largest(set id | id in db.metrics :: db.metrics[id].bucket));
    CumulAllOrNone(par, far);
    forall id | id in db.metrics ensures db.metrics[id].bucket <= far {
      LargestBounds(set x | x in db.metrics :: db.metrics[x].bucket, db.metrics[id].bucket);
    }
    assert Population(db, q, g, far) == WholePopulation(db, q, g);
  }

  /** `percentileFusionne` and `effectif` on the rows of one group, or of the whole result. */
  method RendreGroupe(lines: seq<HistoRow>, g: Option<Option<string>>, pn: int, pd: int, ghost db: Db, ghost q: Question)
    returns (valeur: Option<int>, samples: int)
    requires Exactly(db, q) && Lists(lines, db, q) && 0 < pn <= pd
    ensures samples == |WholePopulation(db, q, g)|
    ensures valeur.None? <==> WholePopulation(db, q, g) == {}
    ensures valeur.Some? ==>
              && |Population(db, q, g, valeur.value)| * pd >= |WholePopulation(db, q, g)| * pn
              && |Population(db, q, g, valeur.value - 1)| * pd < |WholePopulation(db, q, g)| * pn
    ensures forall id :: id in WholePopulation(db, q, g) ==>
              && id in db.metrics && q.from <= db.metrics[id].ts < q.to && db.metrics[id].name == q.variant
              && Wanted(q.scope, db.metrics[id].app) && Asked(db, q.filters, db.metrics[id])
  {
    var par := FusionnerSeaux(Lignes(Selected(lines, g)));
    forall b ensures Cumul(par, b) == |Population(db, q, g, b)| { RowsArePopulation(db, q, lines, g, b); }
    TotalIsPopulation(db, q, par, g);
    TotalPositive(par);
    valeur := PercentileDepuisSeaux(par, pn, pd);
    samples := Total(par);
    forall id | id in WholePopulation(db, q, g) ensures Asked(db, q.filters, db.metrics[id]) {
      AskedExactly(db, q.filters, db.metrics[id]);
    }
  }
}
