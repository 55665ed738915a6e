/**
 Alerts placed on a figure (`annotationsAlertes`): the read is the most recent events of a log, at most
 `plafond` of them, without a time bound; the window of the figure is applied here.
 */
module AlertAnnotations {
  import opened Basics
  import opened Sorting
  import opened Annotations

  /** What a figure reads of a firing; its instant is `None` when it cannot be read. */
  datatype Evenement = Evenement(id: int, instant: Option<int>, metrique: string, route: Option<string>, app: string)

  datatype Figure = Figure(app: Option<string>, route: Option<string>, lienListe: Option<string>)

  datatype Fenetre = Fenetre(from: int, to: int)

  datatype Rendu = Rendu(annotations: seq<Annotation>, liste: seq<Annotation>, indisponible: bool)

  /** An event of the window that concerns the figure: its app, and its route or the whole app. */
  predicate Concerne(e: Evenement, fenetre: Fenetre, figure: Figure) {
    && e.instant.Some? && fenetre.from <= e.instant.value < fenetre.to
    && (figure.app.Some? ==> e.app == figure.app.value)
    && (figure.route.Some? && e.route.Some? ==> e.route == figure.route)
  }

  function Critere(fenetre: Fenetre, figure: Figure): Evenement -> bool {
    e => Concerne(e, fenetre, figure)
  }

  function Portee(e: Evenement, figure: Figure): string {
    if figure.route.Some? then (if e.route.None? then " (toutes routes)" else "")
    else if e.route.GetOr("") != "" then " " + e.route.value else ""
  }

  function Marque(e: Evenement, figure: Figure, nom: string -> string, lien: int -> string): Annotation {
    Annotation(e.instant.GetOr(0), Texte("Alerte " + nom(e.metrique) + Portee(e, figure)), Alerte, Some(lien(e.id)))
  }

  predicate Lisible(e: Evenement) {
    e.instant.Some?
  }

  predicate PlusAncien(a: Evenement, b: Evenement) {
    a.instant.GetOr(0) <= b.instant.GetOr(0)
  }

  function Filter<T(!new)>(s: seq<T>, p: T -> bool): (r: seq<T>)
    ensures forall x :: x in r <==> x in s && p(x)
  {
    if s == [] then []
    else
      assert forall x :: x in s <==> x == s[0] || x in s[1..];
      if p(s[0]) then [s[0]] + Filter(s[1..], p) else Filter(s[1..], p)
  }

  /** The readable events read, oldest first. */
  function Tries(evenements: seq<Evenement>): (r: seq<Evenement>)
    ensures forall e :: e in r <==> e in evenements && Lisible(e)
  {
    var lisibles := Filter(evenements, Lisible);
    SortMembers(lisibles, PlusAncien);
    Sort(lisibles, PlusAncien)
  }

  /** The events the figure shows, oldest first. */
  function Choisis(evenements: seq<Evenement>, fenetre: Fenetre, figure: Figure): seq<Evenement> {
    Filter(Tries(evenements), Critere(fenetre, figure))
  }

  function Marques(s: seq<Evenement>, figure: Figure, nom: string -> string, lien: int -> string): (r: seq<Annotation>)
    ensures |r| == |s| && forall i :: 0 <= i < |s| ==> r[i] == Marque(s[i], figure, nom, lien)
  {
    if s == [] then [] else [Marque(s[0], figure, nom, lien)] + Marques(s[1..], figure, nom, lien)
  }

  /** The read may have missed events of the window: it is full, and its oldest event comes after `from`. */
  predicate Tronquee(evenements: seq<Evenement>, plafond: int, from: int) {
    && |evenements| >= plafond && Tries(evenements) != []
    && Tries(evenements)[0].instant.GetOr(0) > from
  }

  method Dessiner(tries: seq<Evenement>, fenetre: Fenetre, figure: Figure, nom: string -> string, lien: int -> string)
    returns (liste: seq<Annotation>)
    requires forall e :: e in tries ==> Lisible(e)
    ensures liste == Marques(Filter(tries, Critere(fenetre, figure)), figure, nom, lien)
  {
    liste := [];
    ghost var choisis: seq<Evenement> := [];
    var p := Critere(fenetre, figure);
    for i := 0 to |tries|
      invariant Filter(tries, p) == choisis + Filter(tries[i..], p)
      invariant liste == Marques(choisis, figure, nom, lien)
    {
      var e := tries[i];
      assert e in tries;
      Skipping(choisis, tries, i, p);
      if !(fenetre.from <= e.instant.value < fenetre.to) { continue; }
      if figure.app.Some? && e.app != figure.app.value { continue; }
      if figure.route.Some? && e.route.Some? && e.route != figure.route { continue; }
      MarquesSnoc(choisis, e, figure, nom, lien);
      choisis := choisis + [e];
      liste := liste + [Marque(e, figure, nom, lien)];
    }
    assert choisis == Filter(tries, p);
  }

  /** At most six marks: beyond, one mark for the whole list, on its last one. */
  method Reduire(liste: seq<Annotation>, lienListe: Option<string>) returns (r: seq<Annotation>)
    ensures |r| <= MAX_ANNOTATIONS
    ensures r == if |liste| <= MAX_ANNOTATIONS then liste else [Regrouper(liste, lienListe)]
  {
    r := liste;
    if |liste| > MAX_ANNOTATIONS { r := [Regrouper(liste, lienListe)]; }
  }

  method AnnotationsAlertes(evenements: seq<Evenement>, fenetre: Fenetre, figure: Figure, plafond: int,
                            nom: string -> string, lien: int -> string) returns (r: Rendu)
    ensures r.indisponible <==> Tronquee(evenements, plafond, fenetre.from)
    ensures r.liste == if r.indisponible then [] else Marques(Choisis(evenements, fenetre, figure), figure, nom, lien)
    ensures |r.annotations| <= 6 && (|r.liste| <= 6 ==> r.annotations == r.liste)
    ensures |r.liste| > 6 ==> |r.annotations| == 1 && StandsFor(r.annotations[0], r.liste, figure.lienListe)
    ensures |r.liste| > 6 ==> forall a :: a in r.liste ==> a.t <= r.annotations[0].t
  {
    var tries := Tries(evenements);
    if |evenements| >= plafond && tries != [] && tries[0].instant.GetOr(0) > fenetre.from {
      return Rendu([], [], true);
    }
    var liste := Dessiner(tries, fenetre, figure, nom, lien);
    var annotations := Reduire(liste, figure.lienListe);
    ListeIsSorted(evenements, fenetre, figure, nom, lien, liste);
    ReducedStands(liste, figure.lienListe, annotations);
    r := Rendu(annotations, liste, false);
  }

  lemma ListeIsSorted(evenements: seq<Evenement>, fenetre: Fenetre, figure: Figure, nom: string -> string, lien: int -> string,
                      liste: seq<Annotation>)
    requires liste == Marques(Choisis(evenements, fenetre, figure), figure, nom, lien)
    ensures Sorted(liste, ParInstant)
  {
    var choisis := Choisis(evenements, fenetre, figure);
    ChoisisOf(evenements, fenetre, figure);
    forall i, j | 0 <= i < j < |liste| ensures ParInstant(liste[i], liste[j]) {
      assert PlusAncien(choisis[i], choisis[j]);
    }
  }

  lemma ReducedStands(liste: seq<Annotation>, lienListe: Option<string>, r: seq<Annotation>)
    requires Sorted(liste, ParInstant) && r == if |liste| <= MAX_ANNOTATIONS then liste else [Regrouper(liste, lienListe)]
    ensures |r| <= 6 && (|liste| <= 6 ==> r == liste)
    ensures |liste| > 6 ==> |r| == 1 && StandsFor(r[0], liste, lienListe) && forall a :: a in liste ==> a.t <= r[0].t
  {
    if |liste| > MAX_ANNOTATIONS { StandsAtLatest(r[0], liste, lienListe); }
  }

  lemma Skipping<T(!new)>(r: seq<T>, s: seq<T>, i: nat, p: T -> bool)
    requires i < |s|
    ensures r + Filter(s[i..], p) == (if p(s[i]) then r + [s[i]] else r) + Filter(s[i + 1..], p)
  {
    assert s[i..][0] == s[i] && s[i..][1..] == s[i + 1..];
  }

  lemma MarquesSnoc(s: seq<Evenement>, e: Evenement, figure: Figure, nom: string -> string, lien: int -> string)
    ensures Marques(s + [e], figure, nom, lien) == Marques(s, figure, nom, lien) + [Marque(e, figure, nom, lien)]
  {
  }

  // ------------------------------------------------------------------ completeness of what is drawn

  lemma {:induction false} FilterAppend<T(!new)>(a: seq<T>, b: seq<T>, p: T -> bool)
    ensures Filter(a + b, p) == Filter(a, p) + Filter(b, p)
  {
    if a == [] {
      assert a + b == b;
    } else {
      assert (a + b)[1..] == a[1..] + b;
      FilterAppend(a[1..], b, p);
    }
  }

  lemma {:induction false} FilterCounts<T(!new)>(s: seq<T>, p: T -> bool, x: T)
    ensures multiset(Filter(s, p))[x] == if p(x) then multiset(s)[x] else 0
  {
    if s != [] {
      FilterCounts(s[1..], p, x);
      assert s == [s[0]] + s[1..];
    }
  }

  lemma {:induction false} FilterSorted<T(!new)>(s: seq<T>, p: T -> bool, le: (T, T) -> bool)
    requires Sorted(s, le)
    ensures Sorted(Filter(s, p), le)
  {
    if s != [] {
      FilterSorted(s[1..], p, le);
      var rest := Filter(s[1..], p);
      forall k | 0 <= k < |rest| ensures le(s[0], rest[k]) {
        assert rest[k] in s[1..];
        var i :| 0 <= i < |s[1..]| && s[1..][i] == rest[k];
        assert s[i + 1] == rest[k];
      }
    }
  }

  /** The events shown are those of the read that concern the figure, each once, in time order. */
  lemma ChoisisOf(evenements: seq<Evenement>, fenetre: Fenetre, figure: Figure)
    ensures multiset(Choisis(evenements, fenetre, figure)) == multiset(Filter(evenements, Critere(fenetre, figure)))
    ensures Sorted(Choisis(evenements, fenetre, figure), PlusAncien)
  {
    var p := Critere(fenetre, figure);
    var lisibles := Filter(evenements, Lisible);
    SortSorts(lisibles, PlusAncien);
    FilterSorted(Tries(evenements), p, PlusAncien);
    SortKeeps(lisibles, PlusAncien);
    forall e ensures multiset(Filter(Tries(evenements), p))[e] == multiset(Filter(evenements, p))[e] {
      FilterCounts(Tries(evenements), p, e);
      FilterCounts(evenements, Lisible, e);
      FilterCounts(evenements, p, e);
    }
  }

  /**
   A figure shows an event of its read when it is readable, in the window (`to` excluded), of its app if it has one,
   and of its route or of no route if it has one; the mark stands at the event's instant and links to it.
   */
  lemma ShownExactly(evenements: seq<Evenement>, fenetre: Fenetre, figure: Figure, nom: string -> string, lien: int -> string, e: Evenement)
    ensures e in Choisis(evenements, fenetre, figure) <==>
              && e in evenements && e.instant.Some? && fenetre.from <= e.instant.value && e.instant.value < fenetre.to
              && (figure.app.None? || figure.app == Some(e.app))
              && (figure.route.None? || e.route.None? || e.route == figure.route)
    ensures e.instant.Some? ==>
              var mark := Marque(e, figure, nom, lien);
              && mark.t == e.instant.value && mark.genre == Alerte && mark.href == Some(lien(e.id))
              && mark.libelle == Texte("Alerte " + nom(e.metrique)
                                       + match (figure.route, e.route)
                                         case (Some(_), None) => " (toutes routes)"
                                         case (None, Some(route)) => if route == "" then "" else " " + route
                                         case (_, _) => "")
  {
  }

  /** The read may have missed events of the window: it is full, and all it could read is later than `from`. */
  lemma TronqueeExactly(evenements: seq<Evenement>, plafond: int, from: int)
    ensures Tronquee(evenements, plafond, from) <==>
              && |evenements| >= plafond && (exists e :: e in evenements && e.instant.Some?)
              && forall e :: e in evenements && e.instant.Some? ==> e.instant.value > from
  {
    var tries := Tries(evenements);
    SortSorts(Filter(evenements, Lisible), PlusAncien);
    if tries != [] {
      assert tries[0] in tries;
      forall e | e in evenements && e.instant.Some? ensures tries[0].instant.GetOr(0) <= e.instant.value {
        assert e in tries;
        FirstIsOldest(tries, e);
      }
    }
    forall e | e in evenements && e.instant.Some? ensures tries != [] { assert Lisible(e) && e in tries; }
  }

  /** A log, most recent first, with readable instants and one event a number. */
  ghost predicate Log(log: seq<Evenement>) {
    && (forall e :: e in log ==> Lisible(e))
    && forall i, j :: 0 <= i < j < |log| ==> PlusAncien(log[j], log[i]) && log[i].id != log[j].id
  }

  /** What the read of the figure returns of a log. */
  function Lus(log: seq<Evenement>, plafond: nat): seq<Evenement> {
    log[..Min(plafond, |log|)]
  }

  /** The events of the figure the read left behind. */
  function Manques(log: seq<Evenement>, plafond: nat, fenetre: Fenetre, figure: Figure): seq<Evenement> {
    Filter(log[Min(plafond, |log|)..], Critere(fenetre, figure))
  }

  /** The oldest event of a full read is the last one read. */
  lemma OldestIsLast(log: seq<Evenement>, plafond: nat, tries: seq<Evenement>)
    requires Log(log) && 0 < plafond <= |log| && tries == Tries(Lus(log, plafond))
    ensures tries != [] && tries[0].instant == log[plafond - 1].instant
  {
    var lus := Lus(log, plafond);
    var last := lus[plafond - 1];
    SortSorts(Filter(lus, Lisible), PlusAncien);
    assert last in lus && last in tries;
    FirstIsOldest(tries, last);
    assert tries[0] in lus;
    LastIsOldest(lus, tries[0]);
  }

  lemma FirstIsOldest(s: seq<Evenement>, e: Evenement)
    requires Sorted(s, PlusAncien) && e in s
    ensures PlusAncien(s[0], e)
  {
    var k :| 0 <= k < |s| && s[k] == e;
    assert k > 0 ==> PlusAncien(s[0], s[k]);
  }

  lemma LastIsOldest(s: seq<Evenement>, e: Evenement)
    requires (forall i, j :: 0 <= i < j < |s| ==> PlusAncien(s[j], s[i])) && e in s
    ensures PlusAncien(s[|s| - 1], e)
  {
  }

  /** When the figure draws its alerts, all it can miss is what bears the first instant of its window, as the last event read does. */
  lemma OnlyTiesAreMissed(log: seq<Evenement>, plafond: nat, fenetre: Fenetre, figure: Figure, i: nat)
    requires Log(log) && plafond > 0 && !Tronquee(Lus(log, plafond), plafond, fenetre.from)
    requires plafond <= i < |log| && Concerne(log[i], fenetre, figure)
    ensures log[i].instant == log[plafond - 1].instant == Some(fenetre.from)
  {
    OldestIsLast(log, plafond, Tries(Lus(log, plafond)));
    assert PlusAncien(log[i], log[plafond - 1]);
    assert log[i] in log && log[plafond - 1] in log;
  }

  lemma NothingMissed(log: seq<Evenement>, plafond: nat, fenetre: Fenetre, figure: Figure)
    ensures Manques(log, plafond, fenetre, figure) == []
       <==> forall i :: plafond <= i < |log| ==> !Concerne(log[i], fenetre, figure)
  {
    var k := Min(plafond, |log|);
    var manques := Manques(log, plafond, fenetre, figure);
    if manques == [] {
      forall i | plafond <= i < |log| ensures !Concerne(log[i], fenetre, figure) {
        assert log[k..][i - k] == log[i];
        assert log[i] !in manques;
      }
    } else {
      var e := manques[0];
      assert e in manques && e in log[k..];
      var i :| 0 <= i < |log[k..]| && log[k..][i] == e;
      assert log[k + i] == e;
    }
  }

  /** What the read holds of the figure, then what it left behind. */
  lemma ReadOrMissed(log: seq<Evenement>, plafond: nat, fenetre: Fenetre, figure: Figure)
    ensures Filter(log, Critere(fenetre, figure))
         == Filter(Lus(log, plafond), Critere(fenetre, figure)) + Manques(log, plafond, fenetre, figure)
  {
    var k := Min(plafond, |log|);
    FilterAppend(log[..k], log[k..], Critere(fenetre, figure));
    assert log == log[..k] + log[k..];
  }

  /** A figure that draws its alerts shows all those of the log unless one left unread bears the first instant of the window. */
  lemma CompleteUnlessTie(log: seq<Evenement>, plafond: nat, fenetre: Fenetre, figure: Figure)
    requires Log(log) && plafond > 0 && !Tronquee(Lus(log, plafond), plafond, fenetre.from)
    ensures Complete(log, plafond, fenetre, figure)
       <==> forall i :: plafond <= i < |log| && Concerne(log[i], fenetre, figure) ==> log[i].instant != Some(fenetre.from)
  {
    ChoisisOf(Lus(log, plafond), fenetre, figure);
    ReadOrMissed(log, plafond, fenetre, figure);
    NothingMissed(log, plafond, fenetre, figure);
    var manques := Manques(log, plafond, fenetre, figure);
    assert manques == [] <==> multiset(manques) == multiset{} by {
      if manques != [] { assert manques[0] in multiset(manques); }
    }
    forall i | plafond <= i < |log| && Concerne(log[i], fenetre, figure) ensures log[i].instant == Some(fenetre.from) {
      OnlyTiesAreMissed(log, plafond, fenetre, figure, i);
    }
  }

  /** The figure shows every event of the log in its window and scope, each once. */
  ghost predicate Complete(log: seq<Evenement>, plafond: nat, fenetre: Fenetre, figure: Figure) {
    multiset(Choisis(Lus(log, plafond), fenetre, figure)) == multiset(Filter(log, Critere(fenetre, figure)))
  }

  /** What the read alone tells: it is short, or it goes back past the window, or the window is empty. */
  predicate Suffisante(lus: seq<Evenement>, plafond: nat, fenetre: Fenetre) {
    || |lus| < plafond || fenetre.from >= fenetre.to
    || (lus != [] && lus[|lus| - 1].instant.GetOr(0) < fenetre.from)
  }

  /** An event of the figure at the first instant of the window, with a number of its own. */
  function AuBord(lus: seq<Evenement>, fenetre: Fenetre, figure: Figure): Evenement {
    Evenement(Numero(lus), Some(fenetre.from), "LCP", None, figure.app.GetOr(""))
  }

  function Numero(s: seq<Evenement>): (n: int)
    ensures forall e :: e in s ==> e.id < n
  {
    if s == [] then 0 else Max(s[0].id + 1, Numero(s[1..]))
  }

  /**
   What a figure that draws its alerts can promise from what it read: every log that reads so is drawn
   whole, each event once and in time order, if and only if the read is short, or its oldest event comes
   before the window, or the window is empty.
   */
  lemma CompleteExactly(lus: seq<Evenement>, plafond: nat, fenetre: Fenetre, figure: Figure)
    requires Log(lus) && 0 < plafond && |lus| <= plafond && !Tronquee(lus, plafond, fenetre.from)
    ensures Sorted(Choisis(lus, fenetre, figure), PlusAncien)
    ensures (forall log :: Log(log) && Lus(log, plafond) == lus ==> Complete(log, plafond, fenetre, figure))
       <==> Suffisante(lus, plafond, fenetre)
  {
    ChoisisOf(lus, fenetre, figure);
    if Suffisante(lus, plafond, fenetre) {
      forall log | Log(log) && Lus(log, plafond) == lus ensures Complete(log, plafond, fenetre, figure) {
        SufficesFor(log, plafond, fenetre, figure);
      }
    } else {
      var log := lus + [AuBord(lus, fenetre, figure)];
      BoundaryIsLost(lus, log, plafond, fenetre, figure);
      assert Log(log) && Lus(log, plafond) == lus && !Complete(log, plafond, fenetre, figure);
    }
  }

  lemma SufficesFor(log: seq<Evenement>, plafond: nat, fenetre: Fenetre, figure: Figure)
    requires Log(log) && plafond > 0 && !Tronquee(Lus(log, plafond), plafond, fenetre.from)
    requires Suffisante(Lus(log, plafond), plafond, fenetre)
    ensures Complete(log, plafond, fenetre, figure)
  {
    CompleteUnlessTie(log, plafond, fenetre, figure);
    forall i | plafond <= i < |log| && Concerne(log[i], fenetre, figure) ensures false {
      OnlyTiesAreMissed(log, plafond, fenetre, figure, i);
    }
  }

  /** The read stays the same when the log holds one more event, and the figure does not show it. */
  lemma BoundaryIsLost(lus: seq<Evenement>, log: seq<Evenement>, plafond: nat, fenetre: Fenetre, figure: Figure)
    requires Log(lus) && 0 < plafond && |lus| <= plafond && !Tronquee(lus, plafond, fenetre.from)
    requires !Suffisante(lus, plafond, fenetre) && log == lus + [AuBord(lus, fenetre, figure)]
    ensures Log(log) && Lus(log, plafond) == lus && !Complete(log, plafond, fenetre, figure)
  {
    var bord := AuBord(lus, fenetre, figure);
    BoundaryExtends(lus, bord, fenetre.from);
    assert Lus(log, plafond) == lus;
    assert log[plafond] == bord && Concerne(bord, fenetre, figure);
    CompleteUnlessTie(log, plafond, fenetre, figure);
  }

  /** A log goes on with a new event no later than its last one. */
  lemma BoundaryExtends(lus: seq<Evenement>, bord: Evenement, from: int)
    requires Log(lus) && lus != [] && lus[|lus| - 1].instant.GetOr(0) >= from
    requires bord.instant == Some(from) && forall e :: e in lus ==> e.id < bord.id
    ensures Log(lus + [bord])
  {
    forall i | 0 <= i < |lus| ensures PlusAncien(bord, lus[i]) && lus[i].id != bord.id {
      assert lus[i] in lus;
    }
  }

  /** On a log of distinct instants, a figure that draws its alerts misses none. */
  lemma DistinctInstantsAreComplete(log: seq<Evenement>, plafond: nat, fenetre: Fenetre, figure: Figure)
    requires Log(log) && plafond > 0 && !Tronquee(Lus(log, plafond), plafond, fenetre.from)
    requires forall i, j :: 0 <= i < j < |log| ==> log[i].instant != log[j].instant
    ensures Complete(log, plafond, fenetre, figure)
  {
    CompleteUnlessTie(log, plafond, fenetre, figure);
    if i :| plafond <= i < |log| && Concerne(log[i], fenetre, figure) {
      OnlyTiesAreMissed(log, plafond, fenetre, figure, i);
      assert false;
    }
  }

  /** A tie at the start of the window: one event read, an equal one left behind, and the figure says nothing. */
  lemma TieIsMissed(log: seq<Evenement>, figure: Figure)
    requires figure == Figure(None, None, None)
    requires log == [Evenement(2, Some(10), "LCP", None, "a"), Evenement(1, Some(10), "LCP", None, "a")]
    ensures Log(log) && !Tronquee(Lus(log, 1), 1, 10)
    ensures log[1] !in Choisis(Lus(log, 1), Fenetre(10, 20), figure)
    ensures log[1] in Filter(log, Critere(Fenetre(10, 20), figure))
  {
    assert Lus(log, 1) == [log[0]];
    OldestIsLast(log, 1, Tries(Lus(log, 1)));
    assert log[1] !in Lus(log, 1);
    assert Concerne(log[1], Fenetre(10, 20), figure);
  }
}
