/**
 The two circuit breakers (per family on the way to console-api, one for the read API relay), and the
 stable draw that decides which sessions are served remotely. Instants are milliseconds.
 */
module Breaker {
  import opened Basics

  const FENETRE_MS := 30_000
  const ECHECS_MAX := 5
  const COUPURE_MS := 60_000

  /** The failures kept, oldest first, and until when the breaker is open. */
  datatype Disjoncteur = Disjoncteur(echecs: seq<int>, coupeJusqua: int)

  const NEUF := Disjoncteur([], 0)

  /** The failures less than thirty seconds old. */
  function Recents(echecs: seq<int>, t: int): seq<int> {
    if echecs == [] then []
    else if t - echecs[0] < FENETRE_MS then [echecs[0]] + Recents(echecs[1..], t)
    else Recents(echecs[1..], t)
  }

  function Echec(d: Disjoncteur, t: int): Disjoncteur {
    var echecs := Recents(d.echecs, t) + [t];
    if |echecs| >= ECHECS_MAX then Disjoncteur([], t + COUPURE_MS) else Disjoncteur(echecs, d.coupeJusqua)
  }

  predicate Ouvert(d: Disjoncteur, now: int) {
    now < d.coupeJusqua
  }

  method Filtrer(echecs: seq<int>, t: int) returns (r: seq<int>)
    ensures r == Recents(echecs, t)
  {
    r := [];
    for i := 0 to |echecs|
      invariant Recents(echecs, t) == r + Recents(echecs[i..], t)
    {
      assert echecs[i..][0] == echecs[i] && echecs[i..][1..] == echecs[i + 1..];
      if t - echecs[i] < FENETRE_MS {
        assert r + ([echecs[i]] + Recents(echecs[i + 1..], t)) == (r + [echecs[i]]) + Recents(echecs[i + 1..], t);
        r := r + [echecs[i]];
      }
    }
  }

  // ------------------------------------------------------------------ the breaker and its history

  /** The whole history of a breaker: every failure since its last opening, and that opening's end. */
  datatype History = History(since: seq<int>, fin: int)

  /** The reference: at least five failures later than thirty seconds ago since the last opening, this one included. */
  predicate Opens(h: History, t: int) {
    CountIf(h.since, x => x > t - 30_000) + 1 >= 5
  }

  function Remember(h: History, t: int): History {
    if Opens(h, t) then History([], t + 60_000) else History(h.since + [t], h.fin)
  }

  function RunBreaker(d: Disjoncteur, failures: seq<int>): Disjoncteur
    decreases |failures|
  {
    if failures == [] then d else RunBreaker(Echec(d, failures[0]), failures[1..])
  }

  function RunHistory(h: History, failures: seq<int>): History
    decreases |failures|
  {
    if failures == [] then h else RunHistory(Remember(h, failures[0]), failures[1..])
  }

  ghost predicate Increasing(s: seq<int>) {
    forall i, j :: 0 <= i < j < |s| ==> s[i] <= s[j]
  }

  lemma {:induction false} RecentsAppend(a: seq<int>, b: seq<int>, t: int)
    ensures Recents(a + b, t) == Recents(a, t) + Recents(b, t)
  {
    if a == [] {
      assert a + b == b;
    } else {
      assert (a + b)[1..] == a[1..] + b;
      RecentsAppend(a[1..], b, t);
    }
  }

  lemma {:induction false} RecentsAreCounted(s: seq<int>, t: int)
    ensures |Recents(s, t)| == CountIf(s, x => x > t - 30_000)
  {
    if s != [] {
      RecentsAreCounted(s[1..], t);
    }
  }

  /** What a filter at an earlier instant dropped, a later one would have dropped too. */
  lemma {:induction false} RecentsLater(s: seq<int>, t: int, u: int)
    requires t <= u
    ensures Recents(Recents(s, t), u) == Recents(s, u)
    ensures |Recents(s, t)| <= |s|
  {
    if s != [] {
      RecentsLater(s[1..], t, u);
      var kept := Recents(s[1..], t);
      if t - s[0] < FENETRE_MS { assert ([s[0]] + kept)[1..] == kept; }
    }
  }

  /** What the breaker keeps is what a full history would keep, from any later instant. */
  ghost predicate Refines(d: Disjoncteur, h: History, now: int) {
    && d.coupeJusqua == h.fin && |d.echecs| < 5 && d.coupeJusqua <= now + 60_000
    && forall t :: t >= now ==> Recents(d.echecs, t) == Recents(h.since, t)
  }

  lemma EchecRefines(d: Disjoncteur, h: History, now: int, t: int)
    requires Refines(d, h, now) && now <= t
    ensures Refines(Echec(d, t), Remember(h, t), t)
    ensures Echec(d, t).coupeJusqua >= d.coupeJusqua
    ensures Opens(h, t) <==> Echec(d, t) == Disjoncteur([], t + 60_000)
  {
    RecentsAreCounted(h.since, t);
    assert Recents(h.since, t) == Recents(d.echecs, t);
    forall u | u >= t ensures Recents(Echec(d, t).echecs, u) == Recents(Remember(h, t).since, u) {
      if !Opens(h, t) {
        RecentsAppend(Recents(d.echecs, t), [t], u);
        RecentsAppend(h.since, [t], u);
        RecentsLater(d.echecs, t, u);
      }
    }
  }

  /**
   Along any run of failures on a clock that does not go back, the breaker opens exactly when its full
   history says so, keeps fewer than five failures, and never shortens a cut.
   */
  lemma {:induction false} BreakerRefinesHistory(d: Disjoncteur, h: History, now: int, failures: seq<int>)
    requires Refines(d, h, now) && Increasing([now] + failures)
    ensures var last := ([now] + failures)[|failures|];
            Refines(RunBreaker(d, failures), RunHistory(h, failures), last)
    ensures RunBreaker(d, failures).coupeJusqua >= d.coupeJusqua
    decreases |failures|
  {
    if failures != [] {
      var t := failures[0];
      assert ([now] + failures)[0] == now && ([now] + failures)[1] == t;
      EchecRefines(d, h, now, t);
      forall i, j | 0 <= i < j < |failures| ensures failures[i] <= failures[j] {
        assert ([now] + failures)[i + 1] == failures[i] && ([now] + failures)[j + 1] == failures[j];
      }
      assert [t] + failures[1..] == failures;
      BreakerRefinesHistory(Echec(d, t), Remember(h, t), t, failures[1..]);
    }
  }

  lemma NeufRefines(now: int)
    requires now >= 0
    ensures Refines(NEUF, History([], 0), now)
  {
  }

  // ------------------------------------------------------------------ the routing of screens and commands

  datatype Famille = Ecrans | Commandes

  datatype Raison = NonBranche | SansSession | SessionLocale | Coupe | Tirage

  datatype Voie = Distante(strict: bool) | Locale(raison: Raison, strict: bool)

  /** What a request knows before its first `await`: the mode, the branching, the token. */
  datatype Demande = Demande(strict: bool, branche: bool, jeton: bool, es256: bool)

  /** `voie` up to the verification of the token. */
  function Avant(q: Demande): Option<Voie> {
    if !q.branche then Some(Locale(NonBranche, false))
    else if !q.jeton then Some(Locale(SansSession, q.strict))
    else if !q.es256 then Some(Locale(SessionLocale, q.strict))
    else None
  }

  /** `voie` once the token is verified: this is where the breaker is looked at. */
  function Admission(q: Demande, verifie: bool, d: Disjoncteur, now: int): Option<Voie> {
    if !verifie then Some(Locale(SansSession, q.strict))
    else if q.strict then Some(Distante(true))
    else if Ouvert(d, now) then Some(Locale(Coupe, false))
    else None
  }

  /** The draw; a percentage that cannot be read counts as zero. */
  function Tirer(pct: Option<real>, seau: nat): Voie {
    if pct.GetOr(0.0) <= 0.0 || seau as real >= pct.GetOr(0.0) then Locale(Tirage, false) else Distante(false)
  }

  function Voir(q: Demande, verifie: bool, d: Disjoncteur, now: int, pct: Option<real>, seau: nat): Voie {
    if Avant(q).Some? then Avant(q).value
    else if Admission(q, verifie, d, now).Some? then Admission(q, verifie, d, now).value
    else Tirer(pct, seau)
  }

  /**
   The remote path is taken exactly by a verified ES256 session of a branched console that is in strict
   mode, or that found the breaker closed and drew a bucket under the percentage.
   */
  lemma DistanteExactly(q: Demande, verifie: bool, d: Disjoncteur, now: int, pct: Option<real>, seau: nat)
    ensures Voir(q, verifie, d, now, pct, seau).Distante? <==>
              && q.branche && q.jeton && q.es256 && verifie
              && (q.strict || (now >= d.coupeJusqua && pct.Some? && seau as real < pct.value))
    ensures Voir(q, verifie, d, now, pct, seau).strict ==> q.strict && q.branche
  {
  }

  /** Why a request stays local: the first of the checks it fails, in their order; strict mode is reported, but for a console that is not branched. */
  lemma LocaleExactly(q: Demande, verifie: bool, d: Disjoncteur, now: int, pct: Option<real>, seau: nat)
    ensures var v := Voir(q, verifie, d, now, pct, seau);
            v.Locale? ==>
              && (v.raison == NonBranche <==> !q.branche)
              && (v.raison == SansSession <==> q.branche && (!q.jeton || (q.es256 && !verifie)))
              && (v.raison == SessionLocale <==> q.branche && q.jeton && !q.es256)
              && (v.raison == Coupe <==> q.branche && q.jeton && q.es256 && verifie && now < d.coupeJusqua)
              && (v.raison == Tirage <==> q.branche && q.jeton && q.es256 && verifie && now >= d.coupeJusqua)
              && (v.strict <==> q.strict && q.branche)
    ensures Voir(q, verifie, d, now, pct, seau).Distante? ==> (Voir(q, verifie, d, now, pct, seau).strict <==> q.strict)
  {
  }

  /** The two breakers of an instance. */
  datatype Etat = Etat(ecrans: Disjoncteur, commandes: Disjoncteur) {
    function Of(f: Famille): Disjoncteur {
      if f == Ecrans then ecrans else commandes
    }
  }

  const DEPART := Etat(NEUF, NEUF)

  datatype Acte =
    | Defaillance(f: Famille, t: int)
    | Controle(f: Famille, q: Demande, verifie: bool, t: int, pct: Option<real>, seau: nat)

  /** Only a failure moves a breaker; a check does not. */
  function Jouer(e: Etat, a: Acte): Etat {
    if a.Controle? then e
    else if a.f == Ecrans then e.(ecrans := Echec(e.ecrans, a.t))
    else e.(commandes := Echec(e.commandes, a.t))
  }

  class Aiguillage {
    var ecrans: Disjoncteur
    var commandes: Disjoncteur

    function Lire(): Etat
      reads this
    {
      Etat(ecrans, commandes)
    }

    constructor ()
      ensures Lire() == DEPART
    {
      ecrans, commandes := NEUF, NEUF;
    }

    /** A transport failure is counted for its family, and for it alone. */
    method Echouer(f: Famille, t: int)
      modifies this
      ensures Lire() == Jouer(old(Lire()), Defaillance(f, t))
    {
      var d := Lire().Of(f);
      var echecs := Filtrer(d.echecs, t);
      echecs := echecs + [t];
      var apres := d.(echecs := echecs);
      if |echecs| >= ECHECS_MAX { apres := Disjoncteur([], t + COUPURE_MS); }
      if f == Ecrans { ecrans := apres; } else { commandes := apres; }
    }

    method Decider(f: Famille, q: Demande, verifie: bool, now: int, pct: Option<real>, seau: nat) returns (v: Voie)
      ensures v == Voir(q, verifie, Lire().Of(f), now, pct, seau)
    {
      if Avant(q).Some? { return Avant(q).value; }
      var admission := Admission(q, verifie, Lire().Of(f), now);
      if admission.Some? { return admission.value; }
      return Tirer(pct, seau);
    }
  }

  // ------------------------------------------------------------------ every interleaving

  function RunEtat(e: Etat, actes: seq<Acte>): Etat
    decreases |actes|
  {
    if actes == [] then e else RunEtat(Jouer(e, actes[0]), actes[1..])
  }

  /** The failures of one family among the acts of a run. */
  function FailuresOf(actes: seq<Acte>, f: Famille): seq<int> {
    if actes == [] then []
    else if actes[0].Defaillance? && actes[0].f == f then [actes[0].t] + FailuresOf(actes[1..], f)
    else FailuresOf(actes[1..], f)
  }

  /** The breaker of a family is moved by its own failures only, in their order. */
  lemma {:induction false} FamiliesDoNotInterfere(e: Etat, actes: seq<Acte>, f: Famille)
    ensures RunEtat(e, actes).Of(f) == RunBreaker(e.Of(f), FailuresOf(actes, f))
    decreases |actes|
  {
    if actes != [] {
      FamiliesDoNotInterfere(Jouer(e, actes[0]), actes[1..], f);
      ghost var rest := FailuresOf(actes[1..], f);
      assert ([actes[0].t] + rest)[1..] == rest;
    }
  }

  ghost predicate Chronological(actes: seq<Acte>) {
    (forall i :: 0 <= i < |actes| ==> actes[i].t >= 0)
    && forall i, j :: 0 <= i < j < |actes| ==> actes[i].t <= actes[j].t
  }

  lemma {:induction false} FailuresAreChronological(actes: seq<Acte>, f: Famille, low: int, high: int)
    requires forall i, j :: 0 <= i < j < |actes| ==> actes[i].t <= actes[j].t
    requires forall i :: 0 <= i < |actes| ==> low <= actes[i].t <= high
    ensures Increasing(FailuresOf(actes, f))
    ensures forall k :: 0 <= k < |FailuresOf(actes, f)| ==> low <= FailuresOf(actes, f)[k] <= high
  {
    if actes != [] {
      FailuresAreChronological(actes[1..], f, actes[0].t, high);
      ghost var rest := FailuresOf(actes[1..], f);
      assert forall k :: 0 <= k < |rest| ==> actes[0].t <= rest[k];
    }
  }

  /**
   In any run of both families, a check that is not strict takes the local path as long as the last
   opening of its family, read off that family's whole history, has not ended; fewer than five
   failures are ever kept.
   */
  lemma NoAdmissionWhileOpen(actes: seq<Acte>, i: nat)
    requires Chronological(actes) && i < |actes| && actes[i].Controle?
    ensures var a := actes[i];
            var h := RunHistory(History([], 0), FailuresOf(actes[..i], a.f));
            var d := RunEtat(DEPART, actes[..i]).Of(a.f);
            var v := Voir(a.q, a.verifie, d, a.t, a.pct, a.seau);
            && (v.Distante? && !v.strict ==> a.t >= h.fin)
            && d.coupeJusqua == h.fin && |d.echecs| < ECHECS_MAX
  {
    var a := actes[i];
    var failures := FailuresOf(actes[..i], a.f);
    assert forall j, k :: 0 <= j < k < i ==> actes[..i][j].t <= actes[..i][k].t;
    FailuresAreChronological(actes[..i], a.f, 0, a.t);
    FamiliesDoNotInterfere(DEPART, actes[..i], a.f);
    NeufRefines(0);
    assert Increasing([0] + failures);
    BreakerRefinesHistory(NEUF, History([], 0), 0, failures);
  }

  // ------------------------------------------------------------------ the relay of the read API

  datatype Issue = LuLocalement | Indisponible | Transmise | TropVolumineux

  datatype Lecture = Lecture(base: bool, eligible: bool, strict: bool, volumineuse: bool)

  /** `relayer` up to the call of the service; `None` means the request leaves. */
  function AvantRelais(q: Lecture, d: Disjoncteur, now: int, pct: Option<real>, alea: real): Option<Issue> {
    if !q.base || !q.eligible then Some(LuLocalement)
    else if Ouvert(d, now) then Some(if q.strict then Indisponible else LuLocalement)
    else if !q.strict && (pct.GetOr(0.0) <= 0.0 || alea * 100.0 >= pct.GetOr(0.0)) then Some(LuLocalement)
    else if q.volumineuse then Some(if q.strict then TropVolumineux else LuLocalement)
    else None
  }

  /**
   A reading leaves for the service exactly when the relay is set up for it, the breaker is closed, it is strict or drawn
   under the percentage, and it is not too large; what stays is read locally, but in strict mode is refused: as unavailable
   when the breaker is open, as too large else.
   */
  lemma LeavesExactly(q: Lecture, d: Disjoncteur, now: int, pct: Option<real>, alea: real)
    ensures AvantRelais(q, d, now, pct, alea).None? <==>
              && q.base && q.eligible && now >= d.coupeJusqua && !q.volumineuse
              && (q.strict || (pct.Some? && pct.value > 0.0 && alea * 100.0 < pct.value))
    ensures AvantRelais(q, d, now, pct, alea).Some? ==>
              AvantRelais(q, d, now, pct, alea).value ==
                if !q.base || !q.eligible || !q.strict then LuLocalement
                else if now < d.coupeJusqua then Indisponible else TropVolumineux
  {
  }

  /** The answer is the service's own only if it signs it below 500. */
  predicate Signee(signature: bool, status: int) {
    signature && status < 500
  }

  /** Strict or not, no reading leaves for the service while the history of the relay says the cut has not ended. */
  lemma RelayStaysWhileOpen(failures: seq<int>, q: Lecture, now: int, pct: Option<real>, alea: real)
    requires Increasing([0] + failures)
    requires now < RunHistory(History([], 0), failures).fin
    ensures var d := RunBreaker(NEUF, failures);
            AvantRelais(q, d, now, pct, alea) == Some(if q.base && q.eligible && q.strict then Indisponible else LuLocalement)
  {
    NeufRefines(0);
    BreakerRefinesHistory(NEUF, History([], 0), 0, failures);
  }

  class Relais {
    var etat: Disjoncteur

    constructor ()
      ensures etat == NEUF
    {
      etat := NEUF;
    }

    method Compter(t: int)
      modifies this
      ensures etat == Echec(old(etat), t)
    {
      var echecs := Filtrer(etat.echecs, t);
      echecs := echecs + [t];
      if |echecs| >= ECHECS_MAX {
        etat := Disjoncteur([], t + COUPURE_MS);
      } else {
        etat := etat.(echecs := echecs);
      }
    }

    /** `reponse`: what the service answered (signature, status), `None` for a network error or the deadline. */
    method Relayer(q: Lecture, now: int, pct: Option<real>, alea: real, reponse: Option<(bool, int)>, fin: int)
      returns (issue: Issue)
      modifies this
      ensures var avant := AvantRelais(q, old(etat), now, pct, alea);
              if avant.Some? then issue == avant.value && etat == old(etat)
              else if reponse.Some? && reponse.value.0 && reponse.value.1 < 500 then issue == Transmise && etat == old(etat)
              else issue == (if q.strict then Indisponible else LuLocalement) && etat == Echec(old(etat), fin)
      ensures old(Ouvert(etat, now)) ==> issue in {LuLocalement, Indisponible} && etat == old(etat)
    {
      var avant := AvantRelais(q, etat, now, pct, alea);
      if avant.Some? { return avant.value; }
      if reponse.None? || !Signee(reponse.value.0, reponse.value.1) {
        Compter(fin);
        return if q.strict then Indisponible else LuLocalement;
      }
      return Transmise;
    }
  }
}
