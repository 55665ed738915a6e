/**
 The strip of firings of the alert screen: one track a source that fired, one for each breached rule that
 did not, in the order of the groups; and what each rule's line says of its firings, day by day.
 */
module AlertTracks {
  import opened Basics
  import opened Sorting
  import opened AlertScreen

  datatype Source = Regle | Slo | Issue | NouvelleErreur

  /** A firing read for the strip; its instant is `None` when it cannot be read. */
  datatype Firing = Firing(source: Source, sourceId: string, libelle: string, instant: Option<int>, severity: string,
                           delivered: int, pending: int, acknowledged: bool, event: int)

  /** A rule, with its identifier as text. */
  datatype Rule = Rule(id: string, active: bool, etat: Option<string>, raison: Option<string>, libelle: string)

  datatype Marqueur = Marqueur(t: int, severite: Severite, livre: bool, enAttente: bool, acquitte: bool, event: int)

  datatype Groupe = GRegle | GSlo | GIssue

  datatype Etat = Desactivee | JamaisEvaluee | Evaluee(etat: string, raison: Option<string>)

  /** A key of the Map: `source:source_id`. */
  datatype Cle = Cle(source: Source, id: string)

  datatype Piste = Piste(cle: Cle, libelle: string, groupe: Groupe, etat: Option<Etat>, marqueurs: seq<Marqueur>)

  function CleDe(l: Firing): Cle {
    Cle(l.source, l.sourceId)
  }

  /** A firing without rule, SLO or issue is shown with the issues: the strip has three groups. */
  function GroupeDe(s: Source): Groupe {
    if s == Regle then GRegle else if s == Slo then GSlo else GIssue
  }

  function Rang(g: Groupe): nat {
    match g case GRegle => 0 case GSlo => 1 case GIssue => 2
  }

  function EtatDeRegle(r: Rule): Etat {
    if !r.active then Desactivee else if r.etat.None? then JamaisEvaluee else Evaluee(r.etat.value, r.raison)
  }

  function MarqueurDe(l: Firing): Marqueur {
    Marqueur(l.instant.GetOr(0), SeveriteConnue(l.severity), l.delivered > 0, l.delivered == 0 && l.pending > 0, l.acknowledged, l.event)
  }

  /** The markers of a key, in the order the firings were read. */
  function Marqueurs(lignes: seq<Firing>, cle: Cle): seq<Marqueur> {
    if lignes == [] then []
    else
      var l := lignes[|lignes| - 1];
      var reste := Marqueurs(lignes[..|lignes| - 1], cle);
      if CleDe(l) == cle then reste + [MarqueurDe(l)] else reste
  }

  /** The label a track takes from the first firing of its key. */
  function LibelleDe(lignes: seq<Firing>, cle: Cle): Option<string> {
    if lignes == [] then None
    else
      var l := lignes[|lignes| - 1];
      var avant := LibelleDe(lignes[..|lignes| - 1], cle);
      if avant.None? && CleDe(l) == cle then Some(l.libelle) else avant
  }

  predicate Franchie(r: Rule) {
    r.active && r.etat == Some("breached")
  }

  /** `new Map(...)`: of rules with the same identifier, the last. */
  function RegleDe(regles: seq<Rule>, id: string): Option<Rule> {
    if regles == [] then None
    else if regles[|regles| - 1].id == id then Some(regles[|regles| - 1])
    else RegleDe(regles[..|regles| - 1], id)
  }

  function Position(pistes: seq<Piste>, cle: Cle): Option<nat> {
    LastWhere(pistes, (p: Piste) => p.cle == cle)
  }

  ghost predicate UniqueKeys(pistes: seq<Piste>) {
    forall i, j :: 0 <= i < j < |pistes| ==> pistes[i].cle != pistes[j].cle
  }

  ghost predicate HasTrack(pistes: seq<Piste>, cle: Cle) {
    exists p :: p in pistes && p.cle == cle
  }

  /** What each track says: its key's group and label, the state of its rule, all the markers of its key. */
  ghost predicate TrackOf(p: Piste, lignes: seq<Firing>, regles: seq<Rule>) {
    && p.groupe == GroupeDe(p.cle.source)
    && p.marqueurs == Marqueurs(lignes, p.cle)
    && (p.marqueurs != [] ==> LibelleDe(lignes, p.cle) == Some(p.libelle))
    && (p.marqueurs != [] ==>
         p.etat == if p.cle.source == Regle && RegleDe(regles, p.cle.id).Some? then Some(EtatDeRegle(RegleDe(regles, p.cle.id).value)) else None)
  }

  ghost predicate FiringTracks(pistes: seq<Piste>, lignes: seq<Firing>, regles: seq<Rule>) {
    && UniqueKeys(pistes)
    && (forall p :: p in pistes ==> TrackOf(p, lignes, regles) && p.marqueurs != [])
    && (forall l :: l in lignes ==> HasTrack(pistes, CleDe(l)))
  }

  // ------------------------------------------------------------------ what a marker, a state and a label say

  /** The marker of a firing: its instant and severity, delivered if any delivery went through, pending if none did and one waits. */
  lemma MarkerSays(l: Firing)
    ensures var m := MarqueurDe(l);
            && (l.instant.Some? ==> l.instant == Some(m.t)) && m.severite == SeveriteConnue(l.severity)
            && (m.livre <==> l.delivered > 0) && (m.enAttente <==> l.delivered == 0 && l.pending > 0)
            && (m.acquitte <==> l.acknowledged) && m.event == l.event
    ensures CleDe(l).source == l.source && CleDe(l).id == l.sourceId
  {
  }

  /** A rule that is off is off whatever it last said; one that never said anything was never evaluated. */
  lemma StateSays(r: Rule)
    ensures EtatDeRegle(r) == Desactivee <==> !r.active
    ensures EtatDeRegle(r) == JamaisEvaluee <==> r.active && r.etat.None?
    ensures EtatDeRegle(r).Evaluee? ==> r.etat == Some(EtatDeRegle(r).etat) && EtatDeRegle(r).raison == r.raison
    ensures Franchie(r) <==> EtatDeRegle(r).Evaluee? && EtatDeRegle(r).etat == "breached"
  {
  }

  /** Rules, then objectives, then issues, with which errors seen for the first time are put. */
  lemma GroupsSay(s: Source)
    ensures GroupeDe(s) == GRegle <==> s == Regle
    ensures GroupeDe(s) == GSlo <==> s == Slo
    ensures Rang(GRegle) < Rang(GSlo) < Rang(GIssue)
  {
  }

  /** The label is that of the first firing of the key. */
  lemma {:induction false} LabelIsFirst(lignes: seq<Firing>, cle: Cle)
    ensures LibelleDe(lignes, cle).None? <==> forall l :: l in lignes ==> CleDe(l) != cle
    ensures LibelleDe(lignes, cle).Some? ==> exists i :: FirstOf(lignes, cle, i) && LibelleDe(lignes, cle) == Some(lignes[i].libelle)
  {
    if lignes != [] {
      var n := |lignes| - 1;
      LabelIsFirst(lignes[..n], cle);
      assert forall l :: l in lignes <==> l == lignes[n] || l in lignes[..n];
      if LibelleDe(lignes[..n], cle).Some? {
        var i :| FirstOf(lignes[..n], cle, i) && LibelleDe(lignes[..n], cle) == Some(lignes[..n][i].libelle);
        assert FirstOf(lignes, cle, i);
      } else if CleDe(lignes[n]) == cle {
        assert forall k :: 0 <= k < n ==> lignes[k] in lignes[..n];
        assert FirstOf(lignes, cle, n);
      }
    }
  }

  predicate FirstOf(lignes: seq<Firing>, cle: Cle, i: int) {
    0 <= i < |lignes| && CleDe(lignes[i]) == cle && forall k :: 0 <= k < i ==> CleDe(lignes[k]) != cle
  }

  /** Of rules with the same identifier the last is known. */
  lemma {:induction false} RuleIsLast(regles: seq<Rule>, id: string)
    ensures RegleDe(regles, id).None? <==> forall r :: r in regles ==> r.id != id
    ensures RegleDe(regles, id).Some? ==> exists i :: LastOf(regles, id, i) && RegleDe(regles, id) == Some(regles[i])
  {
    if regles != [] {
      var n := |regles| - 1;
      RuleIsLast(regles[..n], id);
      assert forall r :: r in regles <==> r == regles[n] || r in regles[..n];
      if regles[n].id == id {
        assert LastOf(regles, id, n);
      } else if RegleDe(regles[..n], id).Some? {
        var i :| LastOf(regles[..n], id, i) && RegleDe(regles[..n], id) == Some(regles[..n][i]);
        assert LastOf(regles, id, i);
      }
    }
  }

  predicate LastOf(regles: seq<Rule>, id: string, i: int) {
    0 <= i < |regles| && regles[i].id == id && forall k :: i < k < |regles| ==> regles[k].id != id
  }

  lemma MarqueursOfNew(lignes: seq<Firing>, cle: Cle)
    requires forall l :: l in lignes ==> CleDe(l) != cle
    ensures Marqueurs(lignes, cle) == [] && LibelleDe(lignes, cle) == None
  {
  }

  /** One more firing: its marker goes to the track of its key, opened if it is the first. */
  function Suivre(pistes: seq<Piste>, l: Firing, regles: seq<Rule>): seq<Piste> {
    var position := Position(pistes, CleDe(l));
    if position.Some? then
      var p := pistes[position.value];
      pistes[position.value := p.(marqueurs := p.marqueurs + [MarqueurDe(l)])]
    else
      var regle := if l.source == Regle then RegleDe(regles, l.sourceId) else None;
      var etat := if regle.Some? then Some(EtatDeRegle(regle.value)) else None;
      pistes + [Piste(CleDe(l), l.libelle, GroupeDe(l.source), etat, [MarqueurDe(l)])]
  }

  lemma NewKey(tirees: seq<Piste>, pistes: seq<Piste>, lignes: seq<Firing>, cle: Cle)
    requires tirees <= pistes && (forall l :: l in lignes ==> HasTrack(tirees, CleDe(l)))
    requires Position(pistes, cle).None?
    ensures Marqueurs(lignes, cle) == [] && LibelleDe(lignes, cle) == None
  {
    forall l | l in lignes ensures CleDe(l) != cle {
      assert HasTrack(tirees, CleDe(l));
    }
    MarqueursOfNew(lignes, cle);
  }

  lemma SuivreKeeps(pistes: seq<Piste>, avant: seq<Firing>, l: Firing, regles: seq<Rule>)
    requires FiringTracks(pistes, avant, regles)
    ensures FiringTracks(Suivre(pistes, l, regles), avant + [l], regles)
  {
    var lignes := avant + [l];
    assert lignes[..|lignes| - 1] == avant;
    var r := Suivre(pistes, l, regles);
    var position := Position(pistes, CleDe(l));
    if position.None? {
      NewKey(pistes, pistes, avant, CleDe(l));
      assert r == pistes + [r[|pistes|]];
    }
    forall p | p in r ensures TrackOf(p, lignes, regles) && p.marqueurs != [] {
      SuivreTrack(pistes, avant, l, regles, r, p);
    }
    forall x | x in lignes ensures HasTrack(r, CleDe(x)) {
      if x in avant {
        assert HasTrack(pistes, CleDe(x));
        var p :| p in pistes && p.cle == CleDe(x);
        var i :| 0 <= i < |pistes| && pistes[i] == p;
        assert r[i] in r && r[i].cle == p.cle;
      } else {
        var i := if position.Some? then position.value else |pistes|;
        assert r[i] in r && r[i].cle == CleDe(l);
      }
    }
  }

  lemma SuivreTrack(pistes: seq<Piste>, avant: seq<Firing>, l: Firing, regles: seq<Rule>, r: seq<Piste>, p: Piste)
    requires UniqueKeys(pistes) && r == Suivre(pistes, l, regles) && p in r
    requires forall q :: q in pistes ==> TrackOf(q, avant, regles) && q.marqueurs != []
    requires Position(pistes, CleDe(l)).None? ==> Marqueurs(avant, CleDe(l)) == [] && LibelleDe(avant, CleDe(l)) == None
    ensures TrackOf(p, avant + [l], regles) && p.marqueurs != []
  {
    assert (avant + [l])[..|avant|] == avant;
    var i :| 0 <= i < |r| && r[i] == p;
    if i < |pistes| { assert pistes[i] in pistes; }
  }

  /** The tracks of the firings; an unreadable instant makes the source throw. */
  method PistesTirees(lignes: seq<Firing>, regles: seq<Rule>) returns (r: Option<seq<Piste>>)
    ensures r.None? <==> exists l :: l in lignes && l.instant.None?
    ensures r.Some? ==> FiringTracks(r.value, lignes, regles)
  {
    var pistes: seq<Piste> := [];
    for i := 0 to |lignes|
      invariant FiringTracks(pistes, lignes[..i], regles)
      invariant forall k :: 0 <= k < i ==> lignes[k].instant.Some?
    {
      if lignes[i].instant.None? { return None; }
      SuivreKeeps(pistes, lignes[..i], lignes[i], regles);
      assert lignes[..i + 1] == lignes[..i] + [lignes[i]];
      pistes := Suivre(pistes, lignes[i], regles);
    }
    assert lignes[..|lignes|] == lignes;
    r := Some(pistes);
  }

  /** A track without marker stands for a breached rule, with its state. */
  ghost predicate Muette(p: Piste, regles: seq<Rule>) {
    exists g :: g in regles && Franchie(g) && p.cle == Cle(Regle, g.id) && p.libelle == g.libelle && p.etat == Some(EtatDeRegle(g))
  }

  /** The strip: every firing and every breached rule has its track, every track is theirs. */
  ghost predicate Strip(pistes: seq<Piste>, lignes: seq<Firing>, regles: seq<Rule>) {
    && UniqueKeys(pistes)
    && (forall p :: p in pistes ==> TrackOf(p, lignes, regles) && (p.marqueurs != [] || Muette(p, regles)))
    && (forall l :: l in lignes ==> HasTrack(pistes, CleDe(l)))
    && (forall g :: g in regles && Franchie(g) ==> HasTrack(pistes, Cle(Regle, g.id)))
  }

  lemma KeepTracks(tirees: seq<Piste>, pistes: seq<Piste>, cle: Cle)
    requires tirees <= pistes && HasTrack(tirees, cle)
    ensures HasTrack(pistes, cle)
  {
    var p :| p in tirees && p.cle == cle;
    assert p in pistes;
  }

  /** A breached rule that did not fire on the window still has its track. */
  method AjouterFranchies(tirees: seq<Piste>, lignes: seq<Firing>, regles: seq<Rule>) returns (pistes: seq<Piste>)
    requires FiringTracks(tirees, lignes, regles)
    ensures Strip(pistes, lignes, regles)
  {
    pistes := tirees;
    for i := 0 to |regles|
      invariant UniqueKeys(pistes) && tirees <= pistes
      invariant forall p :: p in pistes ==> TrackOf(p, lignes, regles) && (p.marqueurs != [] || Muette(p, regles))
      invariant forall k :: 0 <= k < i && Franchie(regles[k]) ==> HasTrack(pistes, Cle(Regle, regles[k].id))
    {
      var g := regles[i];
      var position := Position(pistes, Cle(Regle, g.id));
      if Franchie(g) && position.None? {
        NewKey(tirees, pistes, lignes, Cle(Regle, g.id));
        var avant := pistes;
        pistes := avant + [Piste(Cle(Regle, g.id), g.libelle, GRegle, Some(EtatDeRegle(g)), [])];
        assert pistes[|avant|] in pistes;
        forall k | 0 <= k < i && Franchie(regles[k]) ensures HasTrack(pistes, Cle(Regle, regles[k].id)) {
          KeepTracks(avant, pistes, Cle(Regle, regles[k].id));
        }
      } else if Franchie(g) {
        assert pistes[position.value] in pistes;
      }
    }
    forall l | l in lignes ensures HasTrack(pistes, CleDe(l)) { KeepTracks(tirees, pistes, CleDe(l)); }
  }

  // ------------------------------------------------------------------ the order of the strip

  /** Groups first, then the busiest tracks, then their names as the collation ranks them. */
  function Ordre(alpha: string -> int): (Piste, Piste) -> bool {
    (a: Piste, b: Piste) =>
      if Rang(a.groupe) != Rang(b.groupe) then Rang(a.groupe) < Rang(b.groupe)
      else if |a.marqueurs| != |b.marqueurs| then |a.marqueurs| > |b.marqueurs|
      else alpha(a.libelle) <= alpha(b.libelle)
  }

  /** The tracks of the strip, in order; `None` when an instant cannot be read. */
  method PistesDeDeclenchements(lignes: seq<Firing>, regles: seq<Rule>, alpha: string -> int) returns (r: Option<seq<Piste>>)
    ensures r.None? <==> exists l :: l in lignes && l.instant.None?
    ensures r.Some? ==> Strip(r.value, lignes, regles) && Sorted(r.value, Ordre(alpha))
  {
    var tirees := PistesTirees(lignes, regles);
    if tirees.None? { return None; }
    var pistes := AjouterFranchies(tirees.value, lignes, regles);
    SortSorts(pistes, Ordre(alpha));
    StripSorted(pistes, Ordre(alpha), lignes, regles);
    r := Some(Sort(pistes, Ordre(alpha)));
  }

  /** In the strip, groups come in their order; in one group the busiest tracks first; of equally busy ones, the first in the alphabet. */
  lemma StripOrder(r: seq<Piste>, alpha: string -> int, i: nat, j: nat)
    requires Sorted(r, Ordre(alpha)) && i < j < |r|
    ensures r[j].groupe == GRegle ==> r[i].groupe == GRegle
    ensures r[i].groupe == GIssue ==> r[j].groupe == GIssue
    ensures r[i].groupe == r[j].groupe ==>
              && |r[i].marqueurs| >= |r[j].marqueurs|
              && (|r[i].marqueurs| == |r[j].marqueurs| ==> alpha(r[i].libelle) <= alpha(r[j].libelle))
  {
    assert Ordre(alpha)(r[i], r[j]);
    GroupsInOrder(r[i], r[j], alpha);
  }

  /** A readable firing of a rule counts for that rule, and nothing else does. */
  lemma FiringOfRule(l: Firing, id: string)
    ensures TireLa(l, id) <==> CleDe(l) == Cle(Regle, id) && l.instant.Some?
  {
  }

  lemma StripSorted(pistes: seq<Piste>, ordre: (Piste, Piste) -> bool, lignes: seq<Firing>, regles: seq<Rule>)
    requires Strip(pistes, lignes, regles)
    ensures Strip(Sort(pistes, ordre), lignes, regles)
  {
    var r := Sort(pistes, ordre);
    SortMembers(pistes, ordre);
    SortDistinct(pistes, ordre);
    assert Distinct(pistes) by {
      forall i, j | 0 <= i < j < |pistes| ensures pistes[i] != pistes[j] { assert pistes[i].cle != pistes[j].cle; }
    }
    forall i, j | 0 <= i < j < |r| ensures r[i].cle != r[j].cle { KeysDiffer(pistes, r[i], r[j]); }
    forall l | l in lignes ensures HasTrack(r, CleDe(l)) { SameTracks(pistes, r, CleDe(l)); }
    forall g | g in regles && Franchie(g) ensures HasTrack(r, Cle(Regle, g.id)) { SameTracks(pistes, r, Cle(Regle, g.id)); }
  }

  lemma KeysDiffer(pistes: seq<Piste>, p: Piste, q: Piste)
    requires UniqueKeys(pistes) && p in pistes && q in pistes && p != q
    ensures p.cle != q.cle
  {
    var i :| 0 <= i < |pistes| && pistes[i] == p;
    var j :| 0 <= j < |pistes| && pistes[j] == q;
    assert i < j || j < i;
  }

  lemma SameTracks(pistes: seq<Piste>, r: seq<Piste>, cle: Cle)
    requires (forall p :: p in r <==> p in pistes) && HasTrack(pistes, cle)
    ensures HasTrack(r, cle)
  {
    var p :| p in pistes && p.cle == cle;
    assert p in r;
  }

  /** The groups are contiguous: between two tracks of one group there is no other group. */
  lemma GroupsAreContiguous(r: seq<Piste>, alpha: string -> int, i: nat, j: nat, k: nat)
    requires Sorted(r, Ordre(alpha)) && i < j < k < |r| && r[i].groupe == r[k].groupe
    ensures r[j].groupe == r[i].groupe
  {
    GroupsInOrder(r[i], r[j], alpha);
    GroupsInOrder(r[j], r[k], alpha);
  }

  lemma GroupsInOrder(a: Piste, b: Piste, alpha: string -> int)
    ensures Ordre(alpha)(a, b) ==> Rang(a.groupe) <= Rang(b.groupe)
    ensures Rang(a.groupe) == Rang(b.groupe) ==> a.groupe == b.groupe
  {
    match a.groupe {
      case GRegle =>
      case GSlo =>
      case GIssue =>
    }
  }

  // ------------------------------------------------------------------ every firing is one marker

  function TousLesMarqueurs(pistes: seq<Piste>): seq<Marqueur> {
    if pistes == [] then [] else pistes[0].marqueurs + TousLesMarqueurs(pistes[1..])
  }

  function MarqueursDesLignes(lignes: seq<Firing>): seq<Marqueur> {
    if lignes == [] then [] else MarqueursDesLignes(lignes[..|lignes| - 1]) + [MarqueurDe(lignes[|lignes| - 1])]
  }

  /** The markers of a list of keys. */
  function MarqueursDesCles(cles: seq<Cle>, lignes: seq<Firing>): seq<Marqueur> {
    if cles == [] then [] else Marqueurs(lignes, cles[0]) + MarqueursDesCles(cles[1..], lignes)
  }

  lemma {:induction false} OneMoreFiring(cles: seq<Cle>, lignes: seq<Firing>)
    requires lignes != [] && forall i, j :: 0 <= i < j < |cles| ==> cles[i] != cles[j]
    ensures var l := lignes[|lignes| - 1];
            multiset(MarqueursDesCles(cles, lignes))
            == multiset(MarqueursDesCles(cles, lignes[..|lignes| - 1]))
               + (if CleDe(l) in cles then multiset{MarqueurDe(l)} else multiset{})
  {
    if cles != [] {
      OneMoreFiring(cles[1..], lignes);
      assert cles == [cles[0]] + cles[1..];
      OneMoreMarker(lignes, lignes[|lignes| - 1], cles[0]);
    }
  }

  lemma OneMoreMarker(lignes: seq<Firing>, l: Firing, cle: Cle)
    requires lignes != [] && l == lignes[|lignes| - 1]
    ensures multiset(Marqueurs(lignes, cle))
         == multiset(Marqueurs(lignes[..|lignes| - 1], cle)) + (if CleDe(l) == cle then multiset{MarqueurDe(l)} else multiset{})
  {
  }

  lemma {:induction false} NoFiring(cles: seq<Cle>)
    ensures MarqueursDesCles(cles, []) == []
  {
    if cles != [] { NoFiring(cles[1..]); }
  }

  lemma {:induction false} KeysHoldFirings(cles: seq<Cle>, lignes: seq<Firing>)
    requires forall i, j :: 0 <= i < j < |cles| ==> cles[i] != cles[j]
    requires forall l :: l in lignes ==> CleDe(l) in cles
    ensures multiset(MarqueursDesCles(cles, lignes)) == multiset(MarqueursDesLignes(lignes))
  {
    if lignes == [] {
      NoFiring(cles);
    } else {
      KeysHoldFirings(cles, lignes[..|lignes| - 1]);
      OneMoreFiring(cles, lignes);
    }
  }

  function ClesDe(pistes: seq<Piste>): (r: seq<Cle>)
    ensures |r| == |pistes| && forall i :: 0 <= i < |r| ==> r[i] == pistes[i].cle
  {
    if pistes == [] then [] else [pistes[0].cle] + ClesDe(pistes[1..])
  }

  lemma {:induction false} TracksAreKeys(pistes: seq<Piste>, lignes: seq<Firing>, regles: seq<Rule>)
    requires forall p :: p in pistes ==> TrackOf(p, lignes, regles)
    ensures TousLesMarqueurs(pistes) == MarqueursDesCles(ClesDe(pistes), lignes)
  {
    if pistes != [] {
      assert pistes[0] in pistes;
      TracksAreKeys(pistes[1..], lignes, regles);
      assert ClesDe(pistes)[1..] == ClesDe(pistes[1..]);
    }
  }

  /** Every firing read is exactly one marker of exactly one track. */
  lemma FiringsAreConserved(pistes: seq<Piste>, lignes: seq<Firing>, regles: seq<Rule>)
    requires Strip(pistes, lignes, regles)
    ensures multiset(TousLesMarqueurs(pistes)) == multiset(MarqueursDesLignes(lignes))
  {
    TracksAreKeys(pistes, lignes, regles);
    forall l | l in lignes ensures CleDe(l) in ClesDe(pistes) {
      assert HasTrack(pistes, CleDe(l));
      var p :| p in pistes && p.cle == CleDe(l);
      var i :| 0 <= i < |pistes| && pistes[i] == p;
      assert ClesDe(pistes)[i] == CleDe(l);
    }
    KeysHoldFirings(ClesDe(pistes), lignes);
  }

  // ------------------------------------------------------------------ the firings of a rule, day by day

  /** The day of the grid an instant falls in: the last start not after it, unless a day has passed since. */
  function JourDe(debuts: seq<int>, ms: int): (r: Option<nat>)
    ensures r.Some? ==> r.value < |debuts|
  {
    if debuts == [] then None
    else if ms >= debuts[|debuts| - 1] then
      if ms < debuts[|debuts| - 1] + JOUR_MS then Some(|debuts| - 1) else None
    else JourDe(debuts[..|debuts| - 1], ms)
  }

  /** A grid of days in order that do not overlap. */
  ghost predicate Grille(debuts: seq<int>) {
    forall i, j :: 0 <= i < j < |debuts| ==> debuts[i] + JOUR_MS <= debuts[j]
  }

  /** On a grid, a firing is counted in the day that contains it, and in no other. */
  lemma {:induction false} OwnDay(debuts: seq<int>, ms: int, k: nat)
    requires Grille(debuts) && k < |debuts|
    ensures JourDe(debuts, ms) == Some(k) <==> debuts[k] <= ms < debuts[k] + JOUR_MS
  {
    var n := |debuts| - 1;
    if k < n {
      if ms >= debuts[n] { assert debuts[k] + JOUR_MS <= debuts[n]; } else { OwnDay(debuts[..n], ms, k); }
    }
  }

  /** A readable firing of the rule. */
  predicate TireLa(l: Firing, id: string) {
    l.source == Regle && l.sourceId == id && l.instant.Some?
  }

  function Dernier(lignes: seq<Firing>, id: string): Option<int> {
    if lignes == [] then None
    else
      var l := lignes[|lignes| - 1];
      var d := Dernier(lignes[..|lignes| - 1], id);
      if TireLa(l, id) && (d.None? || l.instant.value > d.value) then l.instant else d
  }

  function ParJour(lignes: seq<Firing>, id: string, debuts: seq<int>, k: nat): nat {
    if lignes == [] then 0
    else
      var l := lignes[|lignes| - 1];
      ParJour(lignes[..|lignes| - 1], id, debuts, k) + (if TireLa(l, id) && JourDe(debuts, l.instant.value) == Some(k) then 1 else 0)
  }

  datatype DeRegle = DeRegle(dernier: Option<int>, parJour: seq<nat>)

  ghost predicate Dit(d: DeRegle, lignes: seq<Firing>, id: string, debuts: seq<int>) {
    && d.dernier == Dernier(lignes, id)
    && |d.parJour| == |debuts| && forall k :: 0 <= k < |debuts| ==> d.parJour[k] == ParJour(lignes, id, debuts, k)
  }

  /** The inner loop: from the last day down to the first that starts at or before the instant. */
  method Ranger(parJour: seq<nat>, debuts: seq<int>, ms: int) returns (r: seq<nat>)
    requires |parJour| == |debuts|
    ensures r == if JourDe(debuts, ms).Some? then parJour[JourDe(debuts, ms).value := parJour[JourDe(debuts, ms).value] + 1] else parJour
  {
    r := parJour;
    var i := |debuts|;
    assert debuts[..i] == debuts;
    while i > 0
      invariant 0 <= i <= |debuts| && r == parJour
      invariant JourDe(debuts, ms) == JourDe(debuts[..i], ms)
    {
      i := i - 1;
      if ms >= debuts[i] {
        if ms < debuts[i] + JOUR_MS { r := r[i := r[i] + 1]; }
        return;
      }
      assert debuts[..i + 1][..i] == debuts[..i];
    }
  }

  /** A row that is not a readable firing of a rule changes nothing for it. */
  lemma OtherRow(d: DeRegle, lignes: seq<Firing>, i: nat, id: string, debuts: seq<int>)
    requires i < |lignes| && !TireLa(lignes[i], id)
    ensures Dernier(lignes[..i + 1], id) == Dernier(lignes[..i], id)
    ensures Dit(d, lignes[..i], id, debuts) ==> Dit(d, lignes[..i + 1], id, debuts)
  {
    assert lignes[..i + 1][..i] == lignes[..i];
  }

  lemma OwnRow(d: DeRegle, lignes: seq<Firing>, i: nat, id: string, debuts: seq<int>, parJour: seq<nat>)
    requires i < |lignes| && TireLa(lignes[i], id) && Dit(d, lignes[..i], id, debuts)
    requires var k := JourDe(debuts, lignes[i].instant.value);
             parJour == if k.Some? then d.parJour[k.value := d.parJour[k.value] + 1] else d.parJour
    ensures var dernier := if d.dernier.None? || lignes[i].instant.value > d.dernier.value then lignes[i].instant else d.dernier;
            dernier.Some? && Dit(DeRegle(dernier, parJour), lignes[..i + 1], id, debuts)
  {
    assert lignes[..i + 1][..i] == lignes[..i];
  }

  /** After some rows: one entry for each rule that fired, with what its rows say. */
  ghost predicate ParRegle(r: map<string, DeRegle>, lignes: seq<Firing>, debuts: seq<int>) {
    && (forall id :: id in r <==> Dernier(lignes, id).Some?)
    && forall id :: id in r ==> Dit(r[id], lignes, id, debuts)
  }

  lemma OtherRules(r: map<string, DeRegle>, lignes: seq<Firing>, i: nat, debuts: seq<int>, own: string)
    requires i < |lignes| && ParRegle(r, lignes[..i], debuts)
    requires !TireLa(lignes[i], own) ==> forall id :: !TireLa(lignes[i], id)
    ensures forall id :: id != own || !TireLa(lignes[i], own) ==>
              && (id in r <==> Dernier(lignes[..i + 1], id).Some?)
              && (id in r ==> Dit(r[id], lignes[..i + 1], id, debuts))
  {
    forall id | id != own || !TireLa(lignes[i], own)
      ensures id in r <==> Dernier(lignes[..i + 1], id).Some?
      ensures id in r ==> Dit(r[id], lignes[..i + 1], id, debuts)
    {
      OtherRow(if id in r then r[id] else DeRegle(None, []), lignes, i, id, debuts);
    }
  }

  lemma OwnEntry(r: map<string, DeRegle>, lignes: seq<Firing>, debuts: seq<int>, own: string, d: DeRegle)
    requires forall id :: id != own ==> (id in r <==> Dernier(lignes, id).Some?) && (id in r ==> Dit(r[id], lignes, id, debuts))
    requires d.dernier.Some? && Dit(d, lignes, own, debuts)
    ensures ParRegle(r[own := d], lignes, debuts)
  {
  }

  /** What each rule's line says of its firings: the latest, and one count a day of the grid. */
  method DeclenchementsParRegle(lignes: seq<Firing>, debuts: seq<int>) returns (r: map<string, DeRegle>)
    ensures ParRegle(r, lignes, debuts)
  {
    r := map[];
    for i := 0 to |lignes|
      invariant ParRegle(r, lignes[..i], debuts)
    {
      var l := lignes[i];
      OtherRules(r, lignes, i, debuts, l.sourceId);
      if l.source == Regle && l.instant.Some? {
        var id := l.sourceId;
        if id !in r { NeverFired(lignes[..i], id, debuts); }
        var d := if id in r then r[id] else DeRegle(None, seq(|debuts|, _ => 0));
        var parJour := Ranger(d.parJour, debuts, l.instant.value);
        OwnRow(d, lignes, i, id, debuts, parJour);
        OwnEntry(r, lignes[..i + 1], debuts, id,
          DeRegle(if d.dernier.None? || l.instant.value > d.dernier.value then l.instant else d.dernier, parJour));
        r := r[id := DeRegle(if d.dernier.None? || l.instant.value > d.dernier.value then l.instant else d.dernier, parJour)];
      }
    }
    assert lignes[..|lignes|] == lignes;
  }

  lemma {:induction false} NeverFired(lignes: seq<Firing>, id: string, debuts: seq<int>)
    requires Dernier(lignes, id).None?
    ensures forall k :: 0 <= k < |debuts| ==> ParJour(lignes, id, debuts, k) == 0
  {
    if lignes != [] { NeverFired(lignes[..|lignes| - 1], id, debuts); }
  }

  /** The last firing of a rule is the latest of its readable firings. */
  lemma {:induction false} DernierIsLatest(lignes: seq<Firing>, id: string)
    ensures Dernier(lignes, id).Some? <==> exists l :: l in lignes && TireLa(l, id)
    ensures forall l :: l in lignes && TireLa(l, id) ==> l.instant.value <= Dernier(lignes, id).value
    ensures Dernier(lignes, id).Some? ==> exists l :: l in lignes && TireLa(l, id) && l.instant == Dernier(lignes, id)
  {
    if lignes != [] {
      var n := |lignes| - 1;
      DernierIsLatest(lignes[..n], id);
      assert forall l :: l in lignes <==> l == lignes[n] || l in lignes[..n];
    }
  }

  /** On a grid, the count of a day is the number of readable firings of the rule between its start and its end. */
  lemma {:induction false} DayCounts(lignes: seq<Firing>, id: string, debuts: seq<int>, k: nat)
    requires Grille(debuts) && k < |debuts|
    ensures ParJour(lignes, id, debuts, k)
         == CountIf(lignes, (l: Firing) => TireLa(l, id) && debuts[k] <= l.instant.GetOr(0) < debuts[k] + JOUR_MS)
  {
    var dansLeJour := (l: Firing) => TireLa(l, id) && debuts[k] <= l.instant.GetOr(0) < debuts[k] + JOUR_MS;
    if lignes != [] {
      var n := |lignes| - 1;
      DayCounts(lignes[..n], id, debuts, k);
      OwnDay(debuts, lignes[n].instant.GetOr(0), k);
      assert lignes == lignes[..n] + [lignes[n]];
      CountIfAppend(lignes[..n], [lignes[n]], dansLeJour);
      assert [lignes[n]][1..] == [];
    }
  }
}
