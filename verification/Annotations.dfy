/**
 The annotations of a time series: alerts placed on the window of a figure, and several families merged
 onto one figure within a bound on the number of marks. Instants are milliseconds.
 */
module Annotations {
  import opened Basics
  import opened Sorting

  const MAX_ANNOTATIONS := 6

  datatype Genre = Deploiement | Alerte | Anomalie | Rupture

  datatype Libelle = Texte(texte: string) | Nombre(n: nat, genre: Genre)

  datatype Annotation = Annotation(t: int, libelle: Libelle, genre: Genre, href: Option<string>)

  /** The mark that stands for a whole list, placed on its last one. */
  function Regrouper(liste: seq<Annotation>, lienListe: Option<string>): Annotation
    requires liste != []
  {
    var derniere := liste[|liste| - 1];
    Annotation(derniere.t, Nombre(|liste|, derniere.genre), derniere.genre, lienListe)
  }

  /** The mark stands where the last of the list does, is of its kind, says how many there are, and links to the whole. */
  predicate StandsFor(mark: Annotation, liste: seq<Annotation>, lienListe: Option<string>) {
    && liste != [] && mark.t == liste[|liste| - 1].t && mark.genre == liste[|liste| - 1].genre
    && mark.libelle == Nombre(|liste|, mark.genre) && mark.href == lienListe
  }

  /** In a list in time order, that is its latest instant. */
  lemma StandsAtLatest(mark: Annotation, liste: seq<Annotation>, lienListe: Option<string>)
    requires StandsFor(mark, liste, lienListe) && Sorted(liste, ParInstant)
    ensures forall a :: a in liste ==> a.t <= mark.t
    ensures exists a :: a in liste && a.t == mark.t
  {
    assert liste[|liste| - 1] in liste;
    forall a | a in liste ensures a.t <= mark.t {
      var i :| 0 <= i < |liste| && liste[i] == a;
      assert i < |liste| - 1 ==> ParInstant(liste[i], liste[|liste| - 1]);
    }
  }

  predicate ParInstant(a: Annotation, b: Annotation) {
    a.t <= b.t
  }

  // ------------------------------------------------------------------ several families on one figure

  datatype Famille = Famille(annotations: seq<Annotation>, liste: seq<Annotation>, lienListe: Option<string>)

  function Retenues(familles: seq<Famille>): (r: seq<Famille>)
    ensures forall f :: f in r <==> f in familles && f.annotations != []
  {
    if familles == [] then []
    else
      assert forall f :: f in familles <==> f == familles[0] || f in familles[1..];
      if familles[0].annotations != [] then [familles[0]] + Retenues(familles[1..]) else Retenues(familles[1..])
  }

  function Total(courants: seq<seq<Annotation>>): nat {
    if courants == [] then 0 else |courants[0]| + Total(courants[1..])
  }

  function Flatten(courants: seq<seq<Annotation>>): (r: seq<Annotation>)
    ensures |r| == Total(courants)
  {
    if courants == [] then [] else courants[0] + Flatten(courants[1..])
  }

  function Longueur(courants: seq<seq<Annotation>>, i: nat): nat {
    if i < |courants| then |courants[i]| else 0
  }

  /** The families that can still be regrouped, in order. */
  function Candidats(courants: seq<seq<Annotation>>, from: nat): (r: seq<nat>)
    requires from <= |courants|
    ensures forall i :: i in r <==> from <= i < |courants| && |courants[i]| > 1
    decreases |courants| - from
  {
    if from == |courants| then []
    else if |courants[from]| > 1 then [from] + Candidats(courants, from + 1)
    else Candidats(courants, from + 1)
  }

  /** What the source regroups: the whole list of the family when it is known. */
  function Source(f: Famille): seq<Annotation> {
    if |f.liste| >= |f.annotations| then f.liste else f.annotations
  }

  /** The marks of each family once those of `g` are regrouped. */
  ghost function Courants(fs: seq<Famille>, g: set<nat>): (r: seq<seq<Annotation>>)
    requires forall i :: 0 <= i < |fs| ==> fs[i].annotations != []
  {
    seq(|fs|, i requires 0 <= i < |fs| => if i in g then [Regrouper(Source(fs[i]), fs[i].lienListe)] else fs[i].annotations)
  }

  /** The number of marks once the families of `g` are regrouped. */
  ghost function Marks(fs: seq<Famille>, g: set<nat>): nat
    requires forall i :: 0 <= i < |fs| ==> fs[i].annotations != []
  {
    Total(Courants(fs, g))
  }

  lemma {:induction false} TotalUpdate(courants: seq<seq<Annotation>>, i: nat, x: seq<Annotation>)
    requires i < |courants|
    ensures Total(courants[i := x]) == Total(courants) - |courants[i]| + |x|
  {
    if i > 0 {
      TotalUpdate(courants[1..], i - 1, x);
      assert courants[i := x][1..] == courants[1..][i - 1 := x];
    } else {
      assert courants[i := x][1..] == courants[1..];
    }
  }

  lemma RegroupingOne(fs: seq<Famille>, g: set<nat>, i: nat)
    requires forall k :: 0 <= k < |fs| ==> fs[k].annotations != []
    requires i < |fs| && i !in g
    ensures Marks(fs, g + {i}) == Marks(fs, g) - |fs[i].annotations| + 1
  {
    var mark := [Regrouper(Source(fs[i]), fs[i].lienListe)];
    TotalUpdate(Courants(fs, g), i, mark);
    assert Courants(fs, g + {i}) == Courants(fs, g)[i := mark];
  }

  lemma Swapping(fs: seq<Famille>, g: set<nat>, s: set<nat>, a: nat, b: nat)
    requires forall k :: 0 <= k < |fs| ==> fs[k].annotations != []
    requires a in s && a !in g && b in g && b !in s && a < |fs| && b < |fs| && |fs[a].annotations| <= |fs[b].annotations|
    ensures Marks(fs, s - {a} + {b}) <= Marks(fs, s)
    ensures |s - {a} + {b}| == |s| && |(s - {a} + {b}) - g| < |s - g|
  {
    assert (s - {a} + {b}) - g == (s - g) - {a};
    var rest := s - {a};
    assert s == rest + {a};
    RegroupingOne(fs, rest, a);
    RegroupingOne(fs, rest, b);
  }

  lemma {:induction false} MoreIsFewerMarks(fs: seq<Famille>, g: set<nat>, s: set<nat>)
    requires forall k :: 0 <= k < |fs| ==> fs[k].annotations != []
    requires s <= g && forall i :: i in g ==> i < |fs|
    ensures Marks(fs, s) >= Marks(fs, g)
    decreases |g - s|
  {
    if s != g {
      assert !(g <= s);
      var b :| b in g && b !in s;
      RegroupingOne(fs, s, b);
      assert g - (s + {b}) == (g - s) - {b};
      MoreIsFewerMarks(fs, g, s + {b});
    }
  }

  lemma SomeElsewhere(g: set<nat>, s: set<nat>)
    requires |s| <= |g| && !(s <= g)
    ensures exists b :: b in g && b !in s
  {
    if g <= s { SubsetSize(g, s); }
  }

  /** No choice of as many families leaves fewer marks than one that took the largest. */
  lemma {:induction false} LargestAreBest(fs: seq<Famille>, g: set<nat>, s: set<nat>, m: nat)
    requires forall k :: 0 <= k < |fs| ==> fs[k].annotations != []
    requires forall i :: i in g || i in s ==> i < |fs|
    requires |s| <= |g|
    requires forall i :: i in g ==> |fs[i].annotations| >= m
    requires forall i :: 0 <= i < |fs| && i !in g ==> |fs[i].annotations| <= m
    ensures Marks(fs, s) >= Marks(fs, g)
    decreases |s - g|
  {
    if s <= g {
      MoreIsFewerMarks(fs, g, s);
    } else {
      var a :| a in s && a !in g;
      SomeElsewhere(g, s);
      var b :| b in g && b !in s;
      Swapping(fs, g, s, a, b);
      LargestAreBest(fs, g, s - {a} + {b}, m);
    }
  }

  /** Nothing can be regrouped below one mark a family. */
  lemma {:induction false} AtLeastOneEach(courants: seq<seq<Annotation>>)
    requires forall i :: 0 <= i < |courants| ==> courants[i] != []
    ensures Total(courants) >= |courants|
    ensures (forall i :: 0 <= i < |courants| ==> |courants[i]| == 1) ==> Total(courants) == |courants|
  {
    if courants != [] {
      AtLeastOneEach(courants[1..]);
    }
  }

  /** The family to regroup next: the first of the most numerous, if one still has several marks. */
  function Cible(courants: seq<seq<Annotation>>): (r: Option<nat>)
    ensures r.Some? ==> r.value < |courants| && |courants[r.value]| > 1
    ensures r.Some? ==> forall i :: 0 <= i < |courants| && |courants[i]| > 1 ==> |courants[i]| <= |courants[r.value]|
    ensures r.None? ==> forall i :: 0 <= i < |courants| ==> |courants[i]| <= 1
  {
    var candidats := Candidats(courants, 0);
    var ordre := (a: nat, b: nat) => Longueur(courants, a) >= Longueur(courants, b);
    var tries := Sort(candidats, ordre);
    SortMembers(candidats, ordre);
    SortSorts(candidats, ordre);
    FirstIsLargest(courants, candidats, tries, ordre);
    if tries == [] then None else Some(tries[0])
  }

  lemma FirstIsLargest(courants: seq<seq<Annotation>>, candidats: seq<nat>, tries: seq<nat>, ordre: (nat, nat) -> bool)
    requires candidats == Candidats(courants, 0) && (forall i :: i in tries <==> i in candidats) && Sorted(tries, ordre)
    requires forall a, b :: ordre(a, b) <==> Longueur(courants, a) >= Longueur(courants, b)
    ensures tries != [] ==> tries[0] in candidats
    ensures forall i :: 0 <= i < |courants| && |courants[i]| > 1 ==> tries != [] && |courants[i]| <= Longueur(courants, tries[0])
  {
    forall i | 0 <= i < |courants| && |courants[i]| > 1
      ensures tries != [] && |courants[i]| <= Longueur(courants, tries[0])
    {
      assert i in candidats && i in tries;
      var k :| 0 <= k < |tries| && tries[k] == i;
      assert k > 0 ==> ordre(tries[0], tries[k]);
    }
  }

  /** No choice of fewer than `n` families meets the bound. */
  ghost predicate Among(fs: seq<Famille>, s: set<nat>) {
    forall i :: i in s ==> i < |fs|
  }

  ghost predicate TooMany(fs: seq<Famille>, n: nat, max: int)
    requires forall k :: 0 <= k < |fs| ==> fs[k].annotations != []
  {
    forall s: set<nat> :: Among(fs, s) && |s| < n ==> Marks(fs, s) > max
  }

  lemma StillTooMany(fs: seq<Famille>, g: set<nat>, m: nat, max: int)
    requires forall k :: 0 <= k < |fs| ==> fs[k].annotations != []
    requires forall i :: i in g ==> i < |fs| && |fs[i].annotations| >= m
    requires forall i :: 0 <= i < |fs| && i !in g ==> |fs[i].annotations| <= m
    requires Marks(fs, g) > max
    ensures TooMany(fs, |g| + 1, max)
  {
    forall s: set<nat> | Among(fs, s) && |s| < |g| + 1 ensures Marks(fs, s) > max {
      LargestAreBest(fs, g, s, m);
    }
  }

  /** `g` holds families of several marks, every other one having at most as many. */
  ghost predicate TookLargest(fs: seq<Famille>, g: set<nat>, m: nat) {
    && (forall i :: i in g ==> i < |fs| && |fs[i].annotations| > 1 && |fs[i].annotations| >= m)
    && (forall i :: 0 <= i < |fs| && i !in g ==> |fs[i].annotations| <= m)
  }

  lemma TakesLargest(fs: seq<Famille>, courants: seq<seq<Annotation>>, g: set<nat>, m: nat, cible: nat)
    requires forall k :: 0 <= k < |fs| ==> fs[k].annotations != []
    requires courants == Courants(fs, g) && TookLargest(fs, g, m) && Cible(courants) == Some(cible)
    ensures cible !in g && courants[cible] == fs[cible].annotations
    ensures TookLargest(fs, g + {cible}, |fs[cible].annotations|)
  {
    assert |courants[cible]| > 1;
    forall i | 0 <= i < |fs| && i !in g + {cible} ensures |fs[i].annotations| <= |fs[cible].annotations| {
      assert courants[i] == fs[i].annotations;
    }
  }

  lemma RegroupsNext(fs: seq<Famille>, courants: seq<seq<Annotation>>, g: set<nat>, m: nat, max: int, i: nat)
    requires forall k :: 0 <= k < |fs| ==> fs[k].annotations != []
    requires courants == Courants(fs, g) && TookLargest(fs, g, m) && Marks(fs, g) > max && Cible(courants) == Some(i)
    ensures i !in g && i < |fs| && courants[i] == fs[i].annotations
    ensures TookLargest(fs, g + {i}, |fs[i].annotations|) && TooMany(fs, |g + {i}|, max)
    ensures Courants(fs, g + {i}) == courants[i := [Regrouper(Source(fs[i]), fs[i].lienListe)]]
    ensures Marks(fs, g + {i}) < Marks(fs, g)
  {
    StillTooMany(fs, g, m, max);
    TakesLargest(fs, courants, g, m, i);
    RegroupingOne(fs, g, i);
  }

  lemma FirstBound(fs: seq<Famille>, courants: seq<seq<Annotation>>)
    requires |courants| == |fs| && forall i :: 0 <= i < |fs| ==> courants[i] == fs[i].annotations
    ensures TookLargest(fs, {}, Total(courants))
  {
    forall i | 0 <= i < |fs| ensures |fs[i].annotations| <= Total(courants) {
      TotalUpdate(courants, i, []);
    }
  }

  /** `r` is what regrouping the families of `g` leaves: within the bound, or down to one mark a family, and with as few families as can be. */
  ghost predicate Fusion(fs: seq<Famille>, g: set<nat>, max: int, r: seq<Annotation>)
    requires forall k :: 0 <= k < |fs| ==> fs[k].annotations != []
  {
    && r == Sort(Flatten(Courants(fs, g)), ParInstant)
    && (forall i :: i in g ==> i < |fs| && |fs[i].annotations| > 1)
    && (|r| <= max || |r| == |fs|)
    && TooMany(fs, |g|, max)
  }

  /** The merged marks: some choice of families was regrouped, as small as any that meets the bound. */
  method FusionnerAnnotations(familles: seq<Famille>, max: int) returns (r: seq<Annotation>)
    ensures exists g: set<nat> :: Fusion(Retenues(familles), g, max, r)
  {
    var fs := Retenues(familles);
    var courants := seq(|fs|, i requires 0 <= i < |fs| => fs[i].annotations);
    ghost var g: set<nat> := {};
    ghost var m: nat := Total(courants);
    FirstBound(fs, courants);
    assert courants == Courants(fs, g);
    while Total(courants) > max
      invariant courants == Courants(fs, g) && TookLargest(fs, g, m) && TooMany(fs, |g|, max)
      decreases Total(courants)
    {
      var cible := Cible(courants);
      if cible.None? {
        AtLeastOneEach(courants);
        break;
      }
      var i := cible.value;
      RegroupsNext(fs, courants, g, m, max, i);
      var source := if |fs[i].liste| >= |courants[i]| then fs[i].liste else courants[i];
      courants := courants[i := [Regrouper(source, fs[i].lienListe)]];
      g := g + {i};
      m := |fs[i].annotations|;
    }
    r := Sort(Flatten(courants), ParInstant);
    assert Fusion(fs, g, max, r);
  }

  /** The bound can be met exactly when there are no more non-empty families than marks allowed. */
  lemma BoundIsReachable(fs: seq<Famille>, max: int)
    requires forall k :: 0 <= k < |fs| ==> fs[k].annotations != []
    ensures (exists s: set<nat> :: Among(fs, s) && Marks(fs, s) <= max) <==> |fs| <= max
  {
    var all := set i: nat | i < |fs| && fs[i].annotations != [];
    AtLeastOneEach(Courants(fs, all));
    assert Among(fs, all) && Marks(fs, all) == |fs|;
    forall s: set<nat> ensures Marks(fs, s) >= |fs| { AtLeastOneEach(Courants(fs, s)); }
  }

  lemma {:induction false} FlattenHolds(courants: seq<seq<Annotation>>, i: nat)
    requires i < |courants|
    ensures multiset(courants[i]) <= multiset(Flatten(courants))
  {
    if i > 0 { FlattenHolds(courants[1..], i - 1); }
  }

  /** One mark stands for the family: for its whole list when it is known, else for the marks it has. */
  ghost predicate Marked(r: seq<Annotation>, f: Famille) {
    exists mark :: mark in r && StandsFor(mark, if |f.liste| >= |f.annotations| then f.liste else f.annotations, f.lienListe)
  }

  /** The merged marks are in time order; families left alone are whole in them; a regrouped one has its mark. */
  lemma MergedMarks(fs: seq<Famille>, g: set<nat>, r: seq<Annotation>)
    requires forall k :: 0 <= k < |fs| ==> fs[k].annotations != []
    requires r == Sort(Flatten(Courants(fs, g)), ParInstant)
    ensures Sorted(r, ParInstant) && |r| == Marks(fs, g)
    ensures forall i :: 0 <= i < |fs| && i !in g ==> multiset(fs[i].annotations) <= multiset(r)
    ensures forall i :: 0 <= i < |fs| && i in g ==> Marked(r, fs[i])
  {
    SortSorts(Flatten(Courants(fs, g)), ParInstant);
    forall i | 0 <= i < |fs| && i !in g ensures multiset(fs[i].annotations) <= multiset(r) {
      FamilyHeld(fs, g, r, i);
    }
    forall i | 0 <= i < |fs| && i in g ensures Marked(r, fs[i]) {
      FamilyHeld(fs, g, r, i);
      assert Regrouper(Source(fs[i]), fs[i].lienListe) in r;
    }
  }

  lemma FamilyHeld(fs: seq<Famille>, g: set<nat>, r: seq<Annotation>, i: nat)
    requires forall k :: 0 <= k < |fs| ==> fs[k].annotations != []
    requires r == Sort(Flatten(Courants(fs, g)), ParInstant) && i < |fs|
    ensures multiset(Courants(fs, g)[i]) <= multiset(r)
    ensures forall a :: a in Courants(fs, g)[i] ==> a in r
  {
    var courants := Courants(fs, g);
    SortKeeps(Flatten(courants), ParInstant);
    FlattenHolds(courants, i);
    forall a | a in courants[i] ensures a in r {
      assert a in multiset(courants[i]) && a in multiset(r);
    }
  }
}
