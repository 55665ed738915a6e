/**
 Total, ranked groups and time series of one population: the three readings of the Explorer that must
 agree. A label is the rank of its text in the collation of the database.
 */
module Series {
  import opened Basics
  import opened Sorting

  type Label = Option<int>

  /** A combination of the two grouping columns. */
  datatype Key = Key(g0: Label, g1: Label)

  /** A row of the population, with the bucket its instant falls in. */
  datatype Row = Row(key: Key, bucket: int, mesure: Option<real>, identite: Option<string>)

  datatype Aggregation = Count | Sum | Avg | P75 | P95 | Distincts

  predicate EstAdditive(a: Aggregation) {
    a == Count || a == Sum
  }

  // ------------------------------------------------------------------ aggregation

  function Mesures(rows: seq<Row>): seq<real> {
    if rows == [] then []
    else if rows[0].mesure.Some? then [rows[0].mesure.value] + Mesures(rows[1..])
    else Mesures(rows[1..])
  }

  function SumOf(xs: seq<real>): real {
    if xs == [] then 0.0 else xs[0] + SumOf(xs[1..])
  }

  function Identites(rows: seq<Row>): set<string> {
    set r | r in rows && r.identite.Some? :: r.identite.value
  }

  predicate RealLe(a: real, b: real) {
    a <= b
  }

  /** The point of the segment from `a` to `b` at `t` of its length. */
  function Entre(a: real, b: real, t: real): real {
    a + (b - a) * t
  }

  /** The rank of a share of `n` values, from 0: it may fall between two of them. */
  function RankOf(p: real, n: nat): (r: real)
    requires 0.0 <= p <= 1.0 && n > 0
    ensures r == p * (n - 1) as real && 0.0 <= r <= (n - 1) as real
  {
    Share(p, (n - 1) as real);
    p * (n - 1) as real
  }

  function At(s: seq<real>, rank: real): real
    requires s != [] && 0.0 <= rank <= (|s| - 1) as real
  {
    var lo := rank.Floor;
    if lo + 1 < |s| then Entre(s[lo], s[lo + 1], rank - lo as real) else s[lo]
  }

  /** `percentile_cont`: linear interpolation between the two ranks around the share. */
  function PercentileCont(p: real, xs: seq<real>): Option<real>
    requires 0.0 <= p <= 1.0
  {
    if xs == [] then None else Some(At(Sort(xs, RealLe), RankOf(p, |xs|)))
  }

  lemma Share(p: real, m: real)
    requires 0.0 <= p <= 1.0 && 0.0 <= m
    ensures 0.0 <= p * m <= m
  {
    Positive(p, m);
    Positive(1.0 - p, m);
    assert (1.0 - p) * m == m - p * m;
  }

  lemma Positive(x: real, y: real)
    requires 0.0 <= x && 0.0 <= y
    ensures 0.0 <= x * y
  {
  }

  /** The aggregate of a group; NULL where SQL has no value to give. */
  function Agregat(a: Aggregation, rows: seq<Row>): Option<real> {
    var xs := Mesures(rows);
    match a
    case Count => Some(|rows| as real)
    case Distincts => Some(|Identites(rows)| as real)
    case Sum => if xs == [] then None else Some(SumOf(xs))
    case Avg => if xs == [] then None else Some(SumOf(xs) / |xs| as real)
    case P75 => PercentileCont(0.75, xs)
    case P95 => PercentileCont(0.95, xs)
  }

  // ------------------------------------------------------------------ what an aggregate says of its values

  /** `v` is the value of rank `k`, from 0, in ascending order. */
  predicate OfRank(xs: seq<real>, k: int, v: real) {
    CountIf(xs, x => x < v) <= k < CountIf(xs, x => x <= v)
  }

  lemma {:induction false} CountIfInsert(x: real, s: seq<real>, p: real -> bool)
    ensures CountIf(Insert(x, s, RealLe), p) == CountIf([x] + s, p)
  {
    assert ([x] + s)[1..] == s;
    if s != [] && !RealLe(x, s[0]) {
      CountIfInsert(x, s[1..], p);
      assert ([x] + s[1..])[1..] == s[1..];
      assert ([s[0]] + Insert(x, s[1..], RealLe))[1..] == Insert(x, s[1..], RealLe);
    }
  }

  lemma {:induction false} CountIfSort(xs: seq<real>, p: real -> bool)
    ensures CountIf(Sort(xs, RealLe), p) == CountIf(xs, p)
  {
    if xs != [] {
      CountIfSort(xs[1..], p);
      CountIfInsert(xs[0], Sort(xs[1..], RealLe), p);
      assert ([xs[0]] + Sort(xs[1..], RealLe))[1..] == Sort(xs[1..], RealLe);
    }
  }

  lemma {:induction false} CountIfAll(s: seq<real>, p: real -> bool)
    ensures (forall i :: 0 <= i < |s| ==> p(s[i])) ==> CountIf(s, p) == |s|
    ensures (forall i :: 0 <= i < |s| ==> !p(s[i])) ==> CountIf(s, p) == 0
    ensures CountIf(s, p) <= |s|
  {
    if s != [] {
      CountIfAll(s[1..], p);
    }
  }

  lemma CountIfSplit(s: seq<real>, k: nat, p: real -> bool)
    requires k <= |s|
    ensures CountIf(s, p) == CountIf(s[..k], p) + CountIf(s[k..], p)
  {
    assert s == s[..k] + s[k..];
    CountIfAppend(s[..k], s[k..], p);
  }

  /** In a sorted list, the value at a position is of that rank. */
  lemma SortedRank(xs: seq<real>, s: seq<real>, k: nat)
    requires s == Sort(xs, RealLe) && Sorted(s, RealLe) && k < |s|
    ensures OfRank(xs, k, s[k])
  {
    assert forall i :: 0 <= i < k ==> RealLe(s[i], s[k]);
    assert forall i :: k < i < |s| ==> RealLe(s[k], s[i]);
    CountAtMost(xs, s, k, s[k]);
    CountBelow(xs, s, k, s[k]);
  }

  lemma CountBelow(xs: seq<real>, s: seq<real>, k: nat, v: real)
    requires s == Sort(xs, RealLe) && k <= |s| && forall i :: k <= i < |s| ==> v <= s[i]
    ensures CountIf(xs, x => x < v) <= k
  {
    var below := x => x < v;
    CountIfSort(xs, below);
    CountIfSplit(s, k, below);
    CountIfAll(s[k..], below);
    CountIfAll(s[..k], below);
  }

  lemma CountAtMost(xs: seq<real>, s: seq<real>, lo: nat, r: real)
    requires s == Sort(xs, RealLe) && lo < |s| && forall i :: 0 <= i <= lo ==> s[i] <= r
    ensures CountIf(xs, x => x <= r) >= lo + 1
  {
    var upTo := x => x <= r;
    CountIfSort(xs, upTo);
    CountIfSplit(s, lo + 1, upTo);
    CountIfAll(s[..lo + 1], upTo);
  }

  lemma {:induction false} CountIfMonotone(s: seq<real>, p: real -> bool, q: real -> bool)
    requires forall x :: p(x) ==> q(x)
    ensures CountIf(s, p) <= CountIf(s, q)
  {
    if s != [] {
      CountIfMonotone(s[1..], p, q);
    }
  }

  /** There is one value of each rank. */
  lemma RankIsUnique(xs: seq<real>, k: int, v: real, w: real)
    requires OfRank(xs, k, v) && OfRank(xs, k, w)
    ensures v == w
  {
    if v < w { CountIfMonotone(xs, x => x <= v, x => x < w); }
    if w < v { CountIfMonotone(xs, x => x <= w, x => x < v); }
  }

  /** `v` stands between the values of the two ranks around `rank`, where `rank` stands between the two. */
  predicate Interpolates(xs: seq<real>, rank: real, low: real, high: real, v: real) {
    && OfRank(xs, rank.Floor, low) && OfRank(xs, Min(rank.Floor + 1, |xs| - 1), high)
    && v == low + (high - low) * (rank - rank.Floor as real)
  }

  /** No percentile without a sample; else it interpolates the values around rank `p * (n - 1)`. */
  lemma PercentileIsInterpolated(p: real, xs: seq<real>)
    requires 0.0 <= p <= 1.0
    ensures PercentileCont(p, xs).None? <==> xs == []
    ensures xs != [] ==> exists low, high :: Interpolates(xs, RankOf(p, |xs|), low, high, PercentileCont(p, xs).value)
  {
    if xs != [] {
      SortSorts(xs, RealLe);
      AtInterpolates(xs, Sort(xs, RealLe), RankOf(p, |xs|));
    }
  }

  lemma AtInterpolates(xs: seq<real>, s: seq<real>, rank: real)
    requires s == Sort(xs, RealLe) && Sorted(s, RealLe) && s != [] && 0.0 <= rank <= (|s| - 1) as real
    ensures exists low, high :: Interpolates(xs, rank, low, high, At(s, rank))
  {
    var lo, hi := rank.Floor, Min(rank.Floor + 1, |s| - 1);
    SortedRank(xs, s, lo);
    SortedRank(xs, s, hi);
    AtIs(s, rank, s[lo], s[hi]);
    Witness(xs, rank, s[lo], s[hi], At(s, rank));
  }

  lemma Witness(xs: seq<real>, rank: real, low: real, high: real, v: real)
    requires Interpolates(xs, rank, low, high, v)
    ensures exists l, h :: Interpolates(xs, rank, l, h, v)
  {
  }

  lemma AtIs(s: seq<real>, rank: real, low: real, high: real)
    requires s != [] && 0.0 <= rank <= (|s| - 1) as real
    requires low == s[rank.Floor] && high == s[Min(rank.Floor + 1, |s| - 1)]
    ensures At(s, rank) == low + (high - low) * (rank - rank.Floor as real)
  {
    Degenerate(low, rank - rank.Floor as real);
  }

  lemma Degenerate(a: real, t: real)
    ensures a + (a - a) * t == a
  {
  }

  /** At least the share of the values is at or below the percentile, and at least the rest at or above it. */
  lemma PercentileRanks(p: real, xs: seq<real>)
    requires 0.0 <= p <= 1.0 && xs != []
    ensures var rank, r := p * (|xs| - 1) as real, PercentileCont(p, xs).value;
            && CountIf(xs, x => x <= r) >= rank.Floor + 1
            && CountIf(xs, x => x >= r) >= |xs| - Ceil(rank)
  {
    SortSorts(xs, RealLe);
    AtRanks(xs, Sort(xs, RealLe), RankOf(p, |xs|));
  }

  function Ceil(x: real): int {
    if x == x.Floor as real then x.Floor else x.Floor + 1
  }

  lemma AtRanks(xs: seq<real>, s: seq<real>, rank: real)
    requires s == Sort(xs, RealLe) && Sorted(s, RealLe) && s != [] && 0.0 <= rank <= (|s| - 1) as real
    ensures var r := At(s, rank);
            CountIf(xs, x => x <= r) >= rank.Floor + 1 && CountIf(xs, x => x >= r) >= |xs| - Ceil(rank)
  {
    var r := At(s, rank);
    Between(s, rank);
    CountAtMost(xs, s, rank.Floor, r);
    CountAtLeast(xs, s, Ceil(rank), r);
  }

  lemma CountAtLeast(xs: seq<real>, s: seq<real>, hi: nat, r: real)
    requires s == Sort(xs, RealLe) && hi <= |s| && forall i :: hi <= i < |s| ==> r <= s[i]
    ensures CountIf(xs, x => x >= r) >= |xs| - hi
  {
    var from := x => x >= r;
    CountIfSort(xs, from);
    CountIfSplit(s, hi, from);
    CountIfAll(s[hi..], from);
  }

  /** The interpolated value stands between the values of the two ranks. */
  lemma Between(s: seq<real>, rank: real)
    requires Sorted(s, RealLe) && s != [] && 0.0 <= rank <= (|s| - 1) as real
    ensures forall i :: 0 <= i <= rank.Floor ==> s[i] <= At(s, rank)
    ensures forall i :: Ceil(rank) <= i < |s| ==> At(s, rank) <= s[i]
  {
    var lo := rank.Floor;
    if lo + 1 < |s| {
      assert RealLe(s[lo], s[lo + 1]);
      Inside(s[lo], s[lo + 1], rank - lo as real);
    }
    assert forall i :: 0 <= i < lo ==> RealLe(s[i], s[lo]);
    assert forall i :: lo < i < |s| ==> RealLe(s[lo], s[i]);
    assert lo + 1 < |s| ==> forall i :: lo + 1 < i < |s| ==> RealLe(s[lo + 1], s[i]);
  }

  lemma Inside(a: real, b: real, t: real)
    requires a <= b && 0.0 <= t <= 1.0
    ensures a <= Entre(a, b, t) <= b
    ensures t == 0.0 ==> Entre(a, b, t) == a
  {
    Share(t, b - a);
  }

  /** A larger share gives no smaller percentile: the 75th is never above the 95th. */
  lemma PercentileIsMonotone(p: real, q: real, xs: seq<real>)
    requires 0.0 <= p <= q <= 1.0 && xs != []
    ensures PercentileCont(p, xs).value <= PercentileCont(q, xs).value
  {
    SortSorts(xs, RealLe);
    var i, j := RankOf(p, |xs|), RankOf(q, |xs|);
    RanksGrow(p, q, |xs|);
    AtIsMonotone(Sort(xs, RealLe), i, j);
  }

  lemma AtIsMonotone(s: seq<real>, i: real, j: real)
    requires Sorted(s, RealLe) && s != [] && 0.0 <= i <= j <= (|s| - 1) as real
    ensures At(s, i) <= At(s, j)
  {
    var lo, hi := i.Floor, j.Floor;
    if lo == hi {
      if lo + 1 < |s| {
        assert RealLe(s[lo], s[lo + 1]);
        Further(s[lo], s[lo + 1], i - lo as real, j - lo as real);
      }
    } else {
      Between(s, i);
      Between(s, j);
      assert Ceil(i) <= hi;
    }
  }

  lemma RanksGrow(p: real, q: real, n: nat)
    requires 0.0 <= p <= q <= 1.0 && n > 0
    ensures RankOf(p, n) <= RankOf(q, n)
  {
    var m := (n - 1) as real;
    Positive(q - p, m);
    assert (q - p) * m == q * m - p * m;
  }

  lemma Further(a: real, b: real, t: real, u: real)
    requires a <= b && t <= u
    ensures Entre(a, b, t) <= Entre(a, b, u)
  {
    Positive(b - a, u - t);
    assert (b - a) * (u - t) == (b - a) * u - (b - a) * t;
  }

  /** The two percentiles offered are those of three quarters and of nineteen twentieths, of the measures that are known. */
  lemma PercentilesOffered(rows: seq<Row>)
    ensures Agregat(P75, rows) == PercentileCont(3.0 / 4.0, Mesures(rows))
    ensures Agregat(P95, rows) == PercentileCont(19.0 / 20.0, Mesures(rows))
    ensures Agregat(P75, rows).None? <==> forall r :: r in rows ==> r.mesure.None?
    ensures Agregat(P75, rows).Some? ==> Agregat(P95, rows).Some? && Agregat(P75, rows).value <= Agregat(P95, rows).value
  {
    MesuresAre(rows);
    if Mesures(rows) != [] { PercentileIsMonotone(0.75, 0.95, Mesures(rows)); }
  }

  /** The average times the number of measured rows is the sum; both are unknown together. */
  lemma AverageTimesCount(rows: seq<Row>)
    ensures Agregat(Avg, rows).None? <==> Agregat(Sum, rows).None?
    ensures Agregat(Sum, rows).None? <==> forall r :: r in rows ==> r.mesure.None?
    ensures Agregat(Avg, rows).Some? ==>
              Agregat(Avg, rows).value * (CountIf(rows, (r: Row) => r.mesure.Some?) as real) == Agregat(Sum, rows).value
  {
    MesuresAre(rows);
    var xs := Mesures(rows);
    if xs != [] { Quotient(SumOf(xs), |xs| as real); }
  }

  lemma Quotient(x: real, n: real)
    requires n > 0.0
    ensures x / n * n == x
  {
  }

  lemma {:induction false} MesuresAre(rows: seq<Row>)
    ensures |Mesures(rows)| == CountIf(rows, (r: Row) => r.mesure.Some?)
    ensures Mesures(rows) == [] <==> forall r :: r in rows ==> r.mesure.None?
  {
    if rows != [] {
      MesuresAre(rows[1..]);
      assert forall r :: r in rows <==> r == rows[0] || r in rows[1..];
    }
  }

  /** What one more row changes in a count, and in a sum. */
  lemma OneMoreAggregated(rows: seq<Row>, r: Row)
    ensures Agregat(Count, [r] + rows) == Some(Agregat(Count, rows).value + 1.0)
    ensures Agregat(Sum, [r] + rows)
         == if r.mesure.None? then Agregat(Sum, rows) else Some(r.mesure.value + Agregat(Sum, rows).GetOr(0.0))
    ensures Agregat(Count, []) == Some(0.0) && Agregat(Sum, []) == None
  {
    assert ([r] + rows)[1..] == rows;
    if r.mesure.Some? { assert ([r.mesure.value] + Mesures(rows))[1..] == Mesures(rows); }
  }

  /** One more row is one more identity, unless it bears none or one already met. */
  lemma OneMoreIdentity(rows: seq<Row>, r: Row)
    ensures Agregat(Distincts, [r] + rows)
         == if r.identite.None? || Met(rows, r.identite.value) then Agregat(Distincts, rows)
            else Some(Agregat(Distincts, rows).value + 1.0)
    ensures Agregat(Distincts, []) == Some(0.0)
  {
    DistinctsAre(rows);
    DistinctsAre([r] + rows);
    DistinctsAre([]);
    IdentitesGrow(rows, r, Identites([r] + rows), Identites(rows));
    if r.identite.Some? { MetExactly(rows, r.identite.value); }
  }

  predicate Met(rows: seq<Row>, identite: string) {
    exists o :: o in rows && o.identite == Some(identite)
  }

  lemma MetExactly(rows: seq<Row>, identite: string)
    ensures identite in Identites(rows) <==> Met(rows, identite)
  {
  }

  lemma DistinctsAre(rows: seq<Row>)
    ensures Agregat(Distincts, rows) == Some(|Identites(rows)| as real)
    ensures rows == [] ==> Identites(rows) == {}
  {
  }

  lemma IdentitesGrow(rows: seq<Row>, r: Row, all: set<string>, known: set<string>)
    requires all == Identites([r] + rows) && known == Identites(rows)
    ensures |all| == |known| + if r.identite.None? || r.identite.value in known then 0 else 1
  {
    assert forall x :: x in [r] + rows <==> x == r || x in rows;
    assert all == known + (if r.identite.Some? then {r.identite.value} else {});
  }

  // ------------------------------------------------------------------ groups and their ranking

  /** The rows of a group (`None`: every group) in a bucket (`None`: every bucket). */
  predicate Selects(k: Option<Key>, b: Option<int>, r: Row) {
    (k.None? || r.key == k.value) && (b.None? || r.bucket == b.value)
  }

  function Select(rows: seq<Row>, k: Option<Key>, b: Option<int>): seq<Row> {
    if rows == [] then []
    else if Selects(k, b, rows[0]) then [rows[0]] + Select(rows[1..], k, b)
    else Select(rows[1..], k, b)
  }

  /** `group by`: each combination once. */
  function Keys(rows: seq<Row>): (ks: seq<Key>)
    ensures Distinct(ks)
    ensures forall k :: k in ks <==> exists r :: r in rows && r.key == k
  {
    if rows == [] then []
    else
      var rest := Keys(rows[1..]);
      assert forall r :: r in rows <==> r == rows[0] || r in rows[1..];
      if rows[0].key in rest then rest else [rows[0].key] + rest
  }

  /** `desc nulls last`. */
  predicate Better(x: Option<real>, y: Option<real>) {
    y.None? || (x.Some? && x.value >= y.value)
  }

  /** `asc nulls last`. */
  predicate Earlier(x: Label, y: Label) {
    y.None? || (x.Some? && x.value <= y.value)
  }

  function ValueOf(a: Aggregation, rows: seq<Row>, k: Key): Option<real> {
    Agregat(a, Select(rows, Some(k), None))
  }

  /** `order by valeur desc nulls last, g0 asc nulls last, g1 asc nulls last`. */
  predicate RankedBefore(value: Key -> Option<real>, j: Key, k: Key) {
    if value(j) != value(k) then Better(value(j), value(k))
    else if j.g0 != k.g0 then Earlier(j.g0, k.g0)
    else Earlier(j.g1, k.g1)
  }

  function Ranking(a: Aggregation, rows: seq<Row>): seq<Key> {
    var value := k => ValueOf(a, rows, k);
    Sort(Keys(rows), (j, k) => RankedBefore(value, j, k))
  }

  datatype Group = Group(key: Key, valeur: Option<real>, samples: nat)

  function GroupsOf(a: Aggregation, rows: seq<Row>, ks: seq<Key>): seq<Group> {
    if ks == [] then []
    else [Group(ks[0], ValueOf(a, rows, ks[0]), |Select(rows, Some(ks[0]), None)|)] + GroupsOf(a, rows, ks[1..])
  }

  /** `compileGroups`: one combination more than the limit, to know whether some are left. */
  function CompileGroups(a: Aggregation, rows: seq<Row>, limit: nat): seq<Group> {
    GroupsOf(a, rows, Take(Ranking(a, rows), limit + 1))
  }

  function CompileTotal(a: Aggregation, rows: seq<Row>): Option<real> {
    Agregat(a, rows)
  }

  // ------------------------------------------------------------------ the series

  datatype Point = Point(bucket: int, key: Key, valeur: Option<real>, samples: nat)

  function Coalesce(x: Option<real>): real {
    x.GetOr(0.0)
  }

  /** One cell of the grid: its rows if the left join finds any, and zero only where zero is a value. */
  function PointOf(a: Aggregation, rows: seq<Row>, b: int, k: Key): Point {
    var here := Select(rows, Some(k), Some(b));
    var m := if here == [] then None else Agregat(a, here);
    Point(b, k, if EstAdditive(a) then Some(Coalesce(m)) else m, |here|)
  }

  function BucketPoints(a: Aggregation, rows: seq<Row>, b: int, tops: seq<Key>): seq<Point> {
    if tops == [] then [] else [PointOf(a, rows, b, tops[0])] + BucketPoints(a, rows, b, tops[1..])
  }

  /** `seaux cross join tops`, in bucket order. */
  function GridPoints(a: Aggregation, rows: seq<Row>, grid: seq<int>, tops: seq<Key>): seq<Point> {
    if grid == [] then [] else BucketPoints(a, rows, grid[0], tops) + GridPoints(a, rows, grid[1..], tops)
  }

  function CompileSeries(a: Aggregation, rows: seq<Row>, grid: seq<int>, limit: nat): seq<Point> {
    GridPoints(a, rows, grid, Take(Ranking(a, rows), limit))
  }

  // ------------------------------------------------------------------ the ranking is an order

  lemma RankedBeforeIsPreorder(value: Key -> Option<real>)
    ensures Preorder((j, k) => RankedBefore(value, j, k))
  {
    var le := (j, k) => RankedBefore(value, j, k);
    forall a, b, c | le(a, b) && le(b, c) ensures le(a, c) {}
  }

  /** The ranking lists every combination once, best first, and ties never leave the order open. */
  lemma RankingIsRanked(a: Aggregation, rows: seq<Row>)
    ensures Distinct(Ranking(a, rows))
    ensures forall k :: k in Ranking(a, rows) <==> exists r :: r in rows && r.key == k
    ensures var s := Ranking(a, rows);
            forall i, j :: 0 <= i < j < |s| ==>
              RankedBefore(k => ValueOf(a, rows, k), s[i], s[j]) && !RankedBefore(k => ValueOf(a, rows, k), s[j], s[i])
  {
    var value := k => ValueOf(a, rows, k);
    var le := (j, k) => RankedBefore(value, j, k);
    RankedBeforeIsPreorder(value);
    SortSorts(Keys(rows), le);
    SortDistinct(Keys(rows), le);
    SortMembers(Keys(rows), le);
    var s := Ranking(a, rows);
    assert s == Sort(Keys(rows), le);
    forall i, j | 0 <= i < j < |s|
      ensures RankedBefore(value, s[i], s[j]) && !RankedBefore(value, s[j], s[i])
    {
      assert le(s[i], s[j]) && s[i] != s[j];
    }
  }

  /** Known values first, the larger before; then the first label, then the second, known before unknown, the smaller before. */
  lemma RankingOnFields(a: Aggregation, rows: seq<Row>, i: nat, j: nat)
    requires i < j < |Ranking(a, rows)|
    ensures var p, q := Ranking(a, rows)[i], Ranking(a, rows)[j];
            var v, w := ValueOf(a, rows, p), ValueOf(a, rows, q);
            && (w.Some? ==> v.Some? && v.value >= w.value)
            && (v == w ==> (q.g0.Some? ==> p.g0.Some? && p.g0.value <= q.g0.value))
            && (v == w && p.g0 == q.g0 ==> p.g1 != q.g1 && (q.g1.Some? ==> p.g1.Some? && p.g1.value <= q.g1.value))
  {
    RankingIsRanked(a, rows);
  }

  /** The rows of a group and a bucket, each as often as it is among all rows, and no other. */
  lemma {:induction false} SelectHolds(rows: seq<Row>, k: Option<Key>, b: Option<int>, r: Row)
    ensures multiset(Select(rows, k, b))[r]
         == if (k.None? || (r.key.g0 == k.value.g0 && r.key.g1 == k.value.g1)) && (b.None? || b == Some(r.bucket)) then multiset(rows)[r] else 0
  {
    if rows != [] {
      SelectHolds(rows[1..], k, b, r);
      assert rows == [rows[0]] + rows[1..];
    }
  }

  /** What a group and a point say: how many rows they hold, the aggregate of those rows, and zero only where nothing is a value. */
  lemma GroupsAndPointsSay(a: Aggregation, rows: seq<Row>, ks: seq<Key>, i: nat, b: int)
    requires i < |ks|
    ensures |GroupsOf(a, rows, ks)| == |ks|
    ensures var g := GroupsOf(a, rows, ks)[i];
            && g.key == ks[i] && g.samples == |Select(rows, Some(ks[i]), None)|
            && g.valeur == Agregat(a, Select(rows, Some(ks[i]), None))
    ensures var p, here := PointOf(a, rows, b, ks[i]), Select(rows, Some(ks[i]), Some(b));
            && p.key == ks[i] && p.bucket == b && p.samples == |here|
            && (if here != [] && Agregat(a, here).Some? then p.valeur == Agregat(a, here)
                else p.valeur == if a == Count || a == Sum then Some(0.0) else None)
  {
    GroupsSay(a, rows, ks, i);
  }

  lemma {:induction false} GroupsSay(a: Aggregation, rows: seq<Row>, ks: seq<Key>, i: nat)
    requires i < |ks|
    ensures |GroupsOf(a, rows, ks)| == |ks|
    ensures GroupsOf(a, rows, ks)[i] == Group(ks[i], Agregat(a, Select(rows, Some(ks[i]), None)), |Select(rows, Some(ks[i]), None)|)
  {
    if i > 0 {
      GroupsSay(a, rows, ks[1..], i - 1);
    } else {
      GroupsKeys(a, rows, ks);
    }
  }

  /** Points come bucket after bucket, in the order of the grid, and in each in that of the groups. */
  lemma {:induction false} PointsInOrder(a: Aggregation, rows: seq<Row>, before: seq<int>, after: seq<int>, tops: seq<Key>)
    ensures GridPoints(a, rows, before + after, tops) == GridPoints(a, rows, before, tops) + GridPoints(a, rows, after, tops)
  {
    if before == [] {
      assert before + after == after;
    } else {
      PointsInOrder(a, rows, before[1..], after, tops);
      assert (before + after)[0] == before[0] && (before + after)[1..] == before[1..] + after;
      Regrouped(BucketPoints(a, rows, before[0], tops), GridPoints(a, rows, before[1..], tops), GridPoints(a, rows, after, tops));
    }
  }

  lemma Regrouped(x: seq<Point>, y: seq<Point>, z: seq<Point>)
    ensures (x + y) + z == x + (y + z)
  {
  }

  lemma PointsOfOneBucket(a: Aggregation, rows: seq<Row>, b: int, tops: seq<Key>)
    ensures |GridPoints(a, rows, [b], tops)| == |tops|
    ensures forall j :: 0 <= j < |tops| ==> GridPoints(a, rows, [b], tops)[j] == PointOf(a, rows, b, tops[j])
  {
    BucketPointsAt(a, rows, b, tops);
    assert GridPoints(a, rows, [b][1..], tops) == [];
  }

  // ------------------------------------------------------------------ groups and series show the same groups

  lemma {:induction false} GroupsKeys(a: Aggregation, rows: seq<Row>, ks: seq<Key>)
    ensures |GroupsOf(a, rows, ks)| == |ks|
    ensures forall i :: 0 <= i < |ks| ==> GroupsOf(a, rows, ks)[i].key == ks[i]
    ensures forall i :: 0 <= i < |ks| ==> GroupsOf(a, rows, ks)[i].valeur == ValueOf(a, rows, ks[i])
  {
    if ks != [] {
      GroupsKeys(a, rows, ks[1..]);
    }
  }

  lemma {:induction false} BucketPointsAt(a: Aggregation, rows: seq<Row>, b: int, tops: seq<Key>)
    ensures |BucketPoints(a, rows, b, tops)| == |tops|
    ensures forall i :: 0 <= i < |tops| ==> BucketPoints(a, rows, b, tops)[i] == PointOf(a, rows, b, tops[i])
  {
    if tops != [] {
      BucketPointsAt(a, rows, b, tops[1..]);
    }
  }

  lemma BucketPointsAre(a: Aggregation, rows: seq<Row>, b: int, tops: seq<Key>, p: Point)
    ensures p in BucketPoints(a, rows, b, tops) <==> p.key in tops && p == PointOf(a, rows, b, p.key)
  {
    var here := BucketPoints(a, rows, b, tops);
    BucketPointsAt(a, rows, b, tops);
    if p.key in tops && p == PointOf(a, rows, b, p.key) {
      var i :| 0 <= i < |tops| && tops[i] == p.key;
      assert here[i] == p;
    }
  }

  lemma {:induction false} GridPointsCount(a: Aggregation, rows: seq<Row>, grid: seq<int>, tops: seq<Key>)
    ensures |GridPoints(a, rows, grid, tops)| == |grid| * |tops|
  {
    if grid != [] {
      GridPointsCount(a, rows, grid[1..], tops);
      BucketPointsAt(a, rows, grid[0], tops);
      OneMoreTimes(|grid| - 1, |tops|);
    }
  }

  lemma OneMoreTimes(n: nat, m: nat)
    ensures (n + 1) * m == n * m + m
  {
  }

  lemma {:induction false} GridPointsAre(a: Aggregation, rows: seq<Row>, grid: seq<int>, tops: seq<Key>, p: Point)
    ensures p in GridPoints(a, rows, grid, tops) <==>
              p.bucket in grid && p.key in tops && p == PointOf(a, rows, p.bucket, p.key)
  {
    if grid != [] {
      GridPointsAre(a, rows, grid[1..], tops, p);
      BucketPointsAre(a, rows, grid[0], tops, p);
    }
  }

  /** What the screen shows of the groups: the extra one only says that some are left. */
  function Shown(groups: seq<Group>, limit: nat): seq<Group> {
    Take(groups, limit)
  }

  lemma ShownAreTops(a: Aggregation, rows: seq<Row>, limit: nat)
    ensures var shown := Shown(CompileGroups(a, rows, limit), limit);
            var tops := Take(Ranking(a, rows), limit);
            |shown| == |tops| && forall i :: 0 <= i < |tops| ==> shown[i].key == tops[i] && shown[i].valeur == ValueOf(a, rows, tops[i])
    ensures |CompileGroups(a, rows, limit)| > limit <==> |Ranking(a, rows)| > limit
  {
    GroupsKeys(a, rows, Take(Ranking(a, rows), limit + 1));
  }

  /**
   The groups of a series are the groups the ranking shows, in every bucket: as many points as cells
   of the grid, one for each shown group and bucket, and none besides.
   */
  lemma SeriesShowsRankedGroups(a: Aggregation, rows: seq<Row>, grid: seq<int>, limit: nat)
    ensures var shown := Shown(CompileGroups(a, rows, limit), limit);
            var points := CompileSeries(a, rows, grid, limit);
            && |points| == |grid| * |shown|
            && (forall p :: p in points ==> p.bucket in grid && exists g :: g in shown && g.key == p.key)
            && (forall b, g :: b in grid && g in shown ==> PointOf(a, rows, b, g.key) in points)
  {
    var shown := Shown(CompileGroups(a, rows, limit), limit);
    var tops := Take(Ranking(a, rows), limit);
    ShownAreTops(a, rows, limit);
    GridPointsCount(a, rows, grid, tops);
    forall p ensures p in CompileSeries(a, rows, grid, limit) <==>
                     p.bucket in grid && p.key in tops && p == PointOf(a, rows, p.bucket, p.key) {
      GridPointsAre(a, rows, grid, tops, p);
    }
    forall p | p in CompileSeries(a, rows, grid, limit) ensures exists g :: g in shown && g.key == p.key {
      var i :| 0 <= i < |tops| && tops[i] == p.key;
      assert shown[i] in shown;
    }
  }

  // ------------------------------------------------------------------ additive readings add up

  /** What a row weighs in an additive aggregation. */
  function Poids(a: Aggregation, r: Row): real {
    if a == Count then 1.0 else Coalesce(r.mesure)
  }

  function Pesee(a: Aggregation, rows: seq<Row>): real {
    if rows == [] then 0.0 else Poids(a, rows[0]) + Pesee(a, rows[1..])
  }

  lemma {:induction false} AgregatWeighs(a: Aggregation, rows: seq<Row>)
    requires EstAdditive(a)
    ensures Coalesce(Agregat(a, rows)) == Pesee(a, rows)
    ensures a == Sum ==> SumOf(Mesures(rows)) == Pesee(a, rows)
  {
    if rows != [] {
      AgregatWeighs(a, rows[1..]);
      if rows[0].mesure.Some? {
        assert ([rows[0].mesure.value] + Mesures(rows[1..]))[1..] == Mesures(rows[1..]);
      }
    }
  }

  function GroupSum(a: Aggregation, rows: seq<Row>, ks: seq<Key>): real {
    if ks == [] then 0.0 else Coalesce(ValueOf(a, rows, ks[0])) + GroupSum(a, rows, ks[1..])
  }

  /** The values of a group's points over the grid. */
  function SeriesSum(a: Aggregation, rows: seq<Row>, grid: seq<int>, k: Key): real {
    if grid == [] then 0.0 else Coalesce(PointOf(a, rows, grid[0], k).valeur) + SeriesSum(a, rows, grid[1..], k)
  }

  function KeyWeights(a: Aggregation, rows: seq<Row>, ks: seq<Key>): real {
    if ks == [] then 0.0 else Pesee(a, Select(rows, Some(ks[0]), None)) + KeyWeights(a, rows, ks[1..])
  }

  function BucketWeights(a: Aggregation, rows: seq<Row>, grid: seq<int>, k: Key): real {
    if grid == [] then 0.0 else Pesee(a, Select(rows, Some(k), Some(grid[0]))) + BucketWeights(a, rows, grid[1..], k)
  }

  lemma {:induction false} KeyWeightsStep(a: Aggregation, r: Row, rest: seq<Row>, ks: seq<Key>)
    requires Distinct(ks)
    ensures KeyWeights(a, [r] + rest, ks) == KeyWeights(a, rest, ks) + if r.key in ks then Poids(a, r) else 0.0
  {
    if ks != [] {
      KeyWeightsStep(a, r, rest, ks[1..]);
      assert ([r] + rest)[1..] == rest;
      var mine := Select(rest, Some(ks[0]), None);
      assert ([r] + mine)[1..] == mine;
      assert r.key == ks[0] ==> r.key !in ks[1..];
    }
  }

  lemma {:induction false} BucketWeightsStep(a: Aggregation, r: Row, rest: seq<Row>, grid: seq<int>, k: Key)
    requires Distinct(grid)
    ensures BucketWeights(a, [r] + rest, grid, k)
         == BucketWeights(a, rest, grid, k) + if r.key == k && r.bucket in grid then Poids(a, r) else 0.0
  {
    if grid != [] {
      BucketWeightsStep(a, r, rest, grid[1..], k);
      assert ([r] + rest)[1..] == rest;
      var mine := Select(rest, Some(k), Some(grid[0]));
      assert ([r] + mine)[1..] == mine;
      assert r.bucket == grid[0] ==> r.bucket !in grid[1..];
    }
  }

  lemma {:induction false} NoRowsNoWeight(a: Aggregation, ks: seq<Key>, grid: seq<int>, k: Key)
    ensures KeyWeights(a, [], ks) == 0.0 && BucketWeights(a, [], grid, k) == 0.0
  {
    if ks != [] { NoRowsNoWeight(a, ks[1..], grid, k); }
    else if grid != [] { NoRowsNoWeight(a, ks, grid[1..], k); }
  }

  lemma {:induction false} KeyWeightsAll(a: Aggregation, rows: seq<Row>, ks: seq<Key>)
    requires Distinct(ks) && forall r :: r in rows ==> r.key in ks
    ensures KeyWeights(a, rows, ks) == Pesee(a, rows)
  {
    if rows == [] {
      NoRowsNoWeight(a, ks, [], Key(None, None));
    } else {
      KeyWeightsAll(a, rows[1..], ks);
      assert rows == [rows[0]] + rows[1..];
      KeyWeightsStep(a, rows[0], rows[1..], ks);
    }
  }

  lemma {:induction false} BucketWeightsAll(a: Aggregation, rows: seq<Row>, grid: seq<int>, k: Key)
    requires Distinct(grid) && forall r :: r in rows ==> r.bucket in grid
    ensures BucketWeights(a, rows, grid, k) == Pesee(a, Select(rows, Some(k), None))
  {
    if rows == [] {
      NoRowsNoWeight(a, [], grid, k);
    } else {
      BucketWeightsAll(a, rows[1..], grid, k);
      assert rows == [rows[0]] + rows[1..];
      BucketWeightsStep(a, rows[0], rows[1..], grid, k);
      var mine := Select(rows[1..], Some(k), None);
      assert ([rows[0]] + mine)[1..] == mine;
    }
  }

  lemma {:induction false} GroupSumWeighs(a: Aggregation, rows: seq<Row>, ks: seq<Key>)
    requires EstAdditive(a)
    ensures GroupSum(a, rows, ks) == KeyWeights(a, rows, ks)
  {
    if ks != [] {
      AgregatWeighs(a, Select(rows, Some(ks[0]), None));
      GroupSumWeighs(a, rows, ks[1..]);
    }
  }

  lemma {:induction false} SeriesSumWeighs(a: Aggregation, rows: seq<Row>, grid: seq<int>, k: Key)
    requires EstAdditive(a)
    ensures SeriesSum(a, rows, grid, k) == BucketWeights(a, rows, grid, k)
  {
    if grid != [] {
      AgregatWeighs(a, Select(rows, Some(k), Some(grid[0])));
      SeriesSumWeighs(a, rows, grid[1..], k);
    }
  }

  /** The values of the points of a series that bear a group's key. */
  function SumOfGroup(points: seq<Point>, k: Key): real {
    if points == [] then 0.0
    else (if points[0].key == k then Coalesce(points[0].valeur) else 0.0) + SumOfGroup(points[1..], k)
  }

  lemma {:induction false} SumOfGroupAppend(p: seq<Point>, q: seq<Point>, k: Key)
    ensures SumOfGroup(p + q, k) == SumOfGroup(p, k) + SumOfGroup(q, k)
  {
    if p == [] {
      assert p + q == q;
    } else {
      assert (p + q)[1..] == p[1..] + q;
      SumOfGroupAppend(p[1..], q, k);
    }
  }

  lemma {:induction false} BucketPointsSum(a: Aggregation, rows: seq<Row>, b: int, tops: seq<Key>, k: Key)
    requires Distinct(tops)
    ensures SumOfGroup(BucketPoints(a, rows, b, tops), k) == if k in tops then Coalesce(PointOf(a, rows, b, k).valeur) else 0.0
  {
    if tops != [] {
      BucketPointsSum(a, rows, b, tops[1..], k);
      assert k == tops[0] ==> k !in tops[1..];
      var rest := BucketPoints(a, rows, b, tops[1..]);
      assert ([PointOf(a, rows, b, tops[0])] + rest)[1..] == rest;
    }
  }

  lemma {:induction false} GridPointsSum(a: Aggregation, rows: seq<Row>, grid: seq<int>, tops: seq<Key>, k: Key)
    requires Distinct(tops) && k in tops
    ensures SumOfGroup(GridPoints(a, rows, grid, tops), k) == SeriesSum(a, rows, grid, k)
  {
    if grid != [] {
      GridPointsSum(a, rows, grid[1..], tops, k);
      BucketPointsSum(a, rows, grid[0], tops, k);
      SumOfGroupAppend(BucketPoints(a, rows, grid[0], tops), GridPoints(a, rows, grid[1..], tops), k);
    }
  }

  lemma SeriesSumIsValue(a: Aggregation, rows: seq<Row>, grid: seq<int>, k: Key)
    requires EstAdditive(a) && Distinct(grid) && forall r :: r in rows ==> r.bucket in grid
    ensures SeriesSum(a, rows, grid, k) == Coalesce(ValueOf(a, rows, k))
  {
    SeriesSumWeighs(a, rows, grid, k);
    BucketWeightsAll(a, rows, grid, k);
    AgregatWeighs(a, Select(rows, Some(k), None));
  }

  /** The points a series returns for a group it shows add up to the value the ranking shows of it. */
  lemma SeriesAddsUpToGroup(a: Aggregation, rows: seq<Row>, grid: seq<int>, limit: nat, g: Group)
    requires EstAdditive(a) && Distinct(grid) && forall r :: r in rows ==> r.bucket in grid
    requires g in Shown(CompileGroups(a, rows, limit), limit)
    ensures SumOfGroup(CompileSeries(a, rows, grid, limit), g.key) == Coalesce(g.valeur)
  {
    var tops := Take(Ranking(a, rows), limit);
    var shown := Shown(CompileGroups(a, rows, limit), limit);
    ShownAreTops(a, rows, limit);
    RankingIsRanked(a, rows);
    var i :| 0 <= i < |shown| && shown[i] == g;
    assert tops[i] == g.key;
    GridPointsSum(a, rows, grid, tops, g.key);
    SeriesSumIsValue(a, rows, grid, g.key);
  }

  function SumOfGroups(groups: seq<Group>): real {
    if groups == [] then 0.0 else Coalesce(groups[0].valeur) + SumOfGroups(groups[1..])
  }

  lemma {:induction false} SumOfGroupsOf(a: Aggregation, rows: seq<Row>, ks: seq<Key>)
    ensures SumOfGroups(GroupsOf(a, rows, ks)) == GroupSum(a, rows, ks)
  {
    if ks != [] {
      SumOfGroupsOf(a, rows, ks[1..]);
    }
  }

  /** When none is left out, the groups returned add up to the total read on its own. */
  lemma GroupsAddUpToTotal(a: Aggregation, rows: seq<Row>, limit: nat)
    requires EstAdditive(a) && |CompileGroups(a, rows, limit)| <= limit
    ensures SumOfGroups(CompileGroups(a, rows, limit)) == Coalesce(CompileTotal(a, rows))
  {
    GroupsKeys(a, rows, Take(Ranking(a, rows), limit + 1));
    SumOfGroupsOf(a, rows, Ranking(a, rows));
    RankingIsRanked(a, rows);
    GroupSumWeighs(a, rows, Ranking(a, rows));
    KeyWeightsAll(a, rows, Ranking(a, rows));
    AgregatWeighs(a, rows);
  }
}
