/**
 The alert screen: what it folds out of the rows it reads (bars by day and severity, tracks of firings,
 firings of a rule day by day). Days and instants are integers: a day is its number, an instant its milliseconds.
 */
module AlertScreen {
  import opened Basics
  import opened Sorting

  const JOUR_MS := 86_400_000

  datatype Severite = Critical | Warning | Info

  /** Old rows say `page` or `error`; an unknown severity is shown as information, not dropped. */
  function SeveriteConnue(severity: string): Severite {
    if severity in {"critical", "page", "error"} then Critical
    else if severity in {"warning", "warn"} then Warning
    else Info
  }

  /** The three words of today and the three of old; any other word is information. */
  lemma SeveriteExactly(severity: string)
    ensures SeveriteConnue(severity) == Critical <==> severity == "critical" || severity == "page" || severity == "error"
    ensures SeveriteConnue(severity) == Warning <==> severity == "warning" || severity == "warn"
  {
  }

  // ------------------------------------------------------------------ bars by day and severity

  datatype LigneJour = LigneJour(jour: int, severity: string, n: nat)

  datatype Point = Point(jour: int, critical: nat, warning: nat, info: nat) {
    function Of(s: Severite): nat {
      match s case Critical => critical case Warning => warning case Info => info
    }

    function Plus(s: Severite, n: nat): Point {
      match s
      case Critical => this.(critical := critical + n)
      case Warning => this.(warning := warning + n)
      case Info => this.(info := info + n)
    }

    function Somme(): nat {
      critical + warning + info
    }
  }

  /** `new Set`: the days in the order they first appear. */
  function Jours(lignes: seq<LigneJour>): (r: seq<int>)
    ensures forall j :: j in r <==> exists l :: l in lignes && l.jour == j
    ensures Distinct(r)
  {
    if lignes == [] then []
    else
      var n := |lignes| - 1;
      assert forall l :: l in lignes <==> l == lignes[n] || l in lignes[..n];
      var r := Jours(lignes[..n]);
      if lignes[n].jour in r then r else r + [lignes[n].jour]
  }

  predicate Avant(a: int, b: int) {
    a <= b
  }

  /** The days of the rows, each once, in order. */
  function GrilleDesJours(lignes: seq<LigneJour>): (r: seq<int>)
    ensures forall j :: j in r <==> exists l :: l in lignes && l.jour == j
    ensures forall i, k :: 0 <= i < k < |r| ==> r[i] < r[k]
  {
    var jours := Jours(lignes);
    var r := Sort(jours, Avant);
    SortMembers(jours, Avant);
    SortSorts(jours, Avant);
    SortDistinct(jours, Avant);
    assert forall i, k :: 0 <= i < k < |r| ==> Avant(r[i], r[k]) && r[i] != r[k];
    r
  }

  /** The firings of a day and a severity. */
  function Compte(lignes: seq<LigneJour>, jour: int, s: Severite): nat {
    if lignes == [] then 0
    else
      var l := lignes[|lignes| - 1];
      Compte(lignes[..|lignes| - 1], jour, s) + (if l.jour == jour && SeveriteConnue(l.severity) == s then l.n else 0)
  }

  function TotalDeclenchements(lignes: seq<LigneJour>): nat {
    if lignes == [] then 0 else TotalDeclenchements(lignes[..|lignes| - 1]) + lignes[|lignes| - 1].n
  }

  function SommeDesBarres(points: seq<Point>): nat {
    if points == [] then 0 else points[0].Somme() + SommeDesBarres(points[1..])
  }

  /** One more row adds its count to the bar of its day and to its severity, and to nothing else. */
  lemma OneMoreCounted(lignes: seq<LigneJour>, l: LigneJour, jour: int)
    ensures var before, after := PointDe(lignes, jour), PointDe(lignes + [l], jour);
            && PointDe([], jour) == Point(jour, 0, 0, 0) && after.jour == jour
            && after.critical == before.critical + (if l.jour == jour && SeveriteConnue(l.severity) == Critical then l.n else 0)
            && after.warning == before.warning + (if l.jour == jour && SeveriteConnue(l.severity) == Warning then l.n else 0)
            && after.info == before.info + (if l.jour == jour && SeveriteConnue(l.severity) == Info then l.n else 0)
  {
    assert (lignes + [l])[..|lignes|] == lignes;
  }

  /** What a bar holds. */
  function PointDe(lignes: seq<LigneJour>, jour: int): Point {
    Point(jour, Compte(lignes, jour, Critical), Compte(lignes, jour, Warning), Compte(lignes, jour, Info))
  }

  function PointsDe(lignes: seq<LigneJour>, grille: seq<int>): seq<Point> {
    seq(|grille|, i requires 0 <= i < |grille| => PointDe(lignes, grille[i]))
  }

  /** One bar a day of the grid, each row counted in the bar of its day and severity. */
  method PointsParJour(lignes: seq<LigneJour>) returns (r: seq<Point>)
    ensures r == PointsDe(lignes, GrilleDesJours(lignes))
  {
    var grille := GrilleDesJours(lignes);
    var parInstant: map<int, Point> := map[];
    for i := 0 to |grille|
      invariant forall k :: 0 <= k < i ==> grille[k] in parInstant
      invariant forall j :: j in parInstant ==> parInstant[j] == Point(j, 0, 0, 0)
    {
      parInstant := parInstant[grille[i] := Point(grille[i], 0, 0, 0)];
    }
    for i := 0 to |lignes|
      invariant forall k :: 0 <= k < |grille| ==> grille[k] in parInstant
      invariant forall j :: j in parInstant ==> parInstant[j] == PointDe(lignes[..i], j)
    {
      var l := lignes[i];
      assert lignes[..i + 1][..i] == lignes[..i] && lignes[..i + 1][i] == l;
      if l.jour in parInstant {
        parInstant := parInstant[l.jour := parInstant[l.jour].Plus(SeveriteConnue(l.severity), l.n)];
      }
    }
    assert lignes[..|lignes|] == lignes;
    r := seq(|grille|, i requires 0 <= i < |grille| && grille[i] in parInstant => parInstant[grille[i]]);
  }

  lemma {:induction false} EmptyBars(grille: seq<int>)
    ensures SommeDesBarres(PointsDe([], grille)) == 0
  {
    if grille != [] {
      EmptyBars(grille[1..]);
      assert PointsDe([], grille)[1..] == PointsDe([], grille[1..]);
    }
  }

  /** One more row adds its count to one bar. */
  lemma {:induction false} OneMoreRow(lignes: seq<LigneJour>, grille: seq<int>)
    requires lignes != [] && forall i, k :: 0 <= i < k < |grille| ==> grille[i] < grille[k]
    ensures SommeDesBarres(PointsDe(lignes, grille))
         == SommeDesBarres(PointsDe(lignes[..|lignes| - 1], grille))
            + (if lignes[|lignes| - 1].jour in grille then lignes[|lignes| - 1].n else 0)
  {
    if grille != [] {
      var avant := lignes[..|lignes| - 1];
      OneMoreRow(lignes, grille[1..]);
      assert PointsDe(lignes, grille)[1..] == PointsDe(lignes, grille[1..]);
      assert PointsDe(avant, grille)[1..] == PointsDe(avant, grille[1..]);
      assert grille == [grille[0]] + grille[1..];
    }
  }

  lemma {:induction false} BarsHoldRows(lignes: seq<LigneJour>, grille: seq<int>)
    requires forall i, k :: 0 <= i < k < |grille| ==> grille[i] < grille[k]
    requires forall l :: l in lignes ==> l.jour in grille
    ensures SommeDesBarres(PointsDe(lignes, grille)) == TotalDeclenchements(lignes)
  {
    if lignes == [] {
      EmptyBars(grille);
    } else {
      BarsHoldRows(lignes[..|lignes| - 1], grille);
      OneMoreRow(lignes, grille);
    }
  }

  /** The bars of the screen add up to all the firings read: no row is lost, whatever its severity. */
  lemma BarsAreConserved(lignes: seq<LigneJour>)
    ensures SommeDesBarres(PointsDe(lignes, GrilleDesJours(lignes))) == TotalDeclenchements(lignes)
  {
    BarsHoldRows(lignes, GrilleDesJours(lignes));
  }
}
