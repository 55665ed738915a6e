/**
 The short-lived memo of ES256 principals: one call to the service for all the readers of a render. An
 entry holds the lookup in flight (or settled) of a token; lookups are numbered in the order they start.
 */
module PrincipalMemo {
  import opened Basics

  const MEMO_MS := 2_000
  const CAPACITE := 1_000

  /** One key of the Map, in insertion order: the token, its lookup, the end of its life. */
  datatype Entree = Entree(jeton: string, recherche: nat, jusqua: int)

  /** Later entries hold later lookups, and no two entries the same token. */
  ghost predicate Ordonne(s: seq<Entree>) {
    s != [] ==>
      && (forall e :: e in s[1..] ==> s[0].recherche < e.recherche && s[0].jeton != e.jeton)
      && Ordonne(s[1..])
  }

  /** The entries still alive at `t`. */
  function Vivantes(s: seq<Entree>, t: int): (r: seq<Entree>)
    ensures forall e :: e in r <==> e in s && e.jusqua > t
    ensures Ordonne(s) ==> Ordonne(r)
    ensures |r| <= |s|
  {
    if s == [] then []
    else
      assert forall e :: e in s <==> e == s[0] || e in s[1..];
      var r := Vivantes(s[1..], t);
      if s[0].jusqua > t then
        assert ([s[0]] + r)[1..] == r;
        [s[0]] + r
      else r
  }

  /** `Map.delete` */
  function Sans(s: seq<Entree>, jeton: string): (r: seq<Entree>)
    ensures forall e :: e in r <==> e in s && e.jeton != jeton
    ensures Ordonne(s) ==> Ordonne(r)
    ensures |r| <= |s|
  {
    if s == [] then []
    else
      assert forall e :: e in s <==> e == s[0] || e in s[1..];
      var r := Sans(s[1..], jeton);
      if s[0].jeton != jeton then
        assert ([s[0]] + r)[1..] == r;
        [s[0]] + r
      else r
  }

  /** `Map.get` */
  function Connu(s: seq<Entree>, jeton: string): (r: Option<Entree>)
    ensures r.Some? ==> r.value in s && r.value.jeton == jeton
    ensures r.None? ==> forall e :: e in s ==> e.jeton != jeton
  {
    if s == [] then None
    else if s[0].jeton == jeton then Some(s[0])
    else
      assert forall e :: e in s <==> e == s[0] || e in s[1..];
      Connu(s[1..], jeton)
  }

  lemma {:induction false} OrdonneSnoc(s: seq<Entree>, x: Entree)
    requires Ordonne(s)
    requires forall e :: e in s ==> e.recherche < x.recherche && e.jeton != x.jeton
    ensures Ordonne(s + [x])
  {
    if s != [] {
      OrdonneSnoc(s[1..], x);
      assert (s + [x])[1..] == s[1..] + [x];
    } else {
      assert s + [x] == [x];
    }
  }

  /** A forgotten token is unknown; every other token keeps its entry. */
  lemma {:induction false} SansForgets(s: seq<Entree>, jeton: string, autre: string)
    ensures Connu(Sans(s, jeton), autre) == if autre == jeton then None else Connu(s, autre)
  {
    if s != [] {
      SansForgets(s[1..], jeton, autre);
      assert s[0].jeton != jeton ==> ([s[0]] + Sans(s[1..], jeton))[1..] == Sans(s[1..], jeton);
    }
  }

  /** The entries after a call that found nothing: room made by evicting the oldest, then the new lookup. */
  function Inscrire(s: seq<Entree>, jeton: string, recherche: nat, t: int): seq<Entree> {
    (if |s| >= CAPACITE then s[1..] else s) + [Entree(jeton, recherche, t + MEMO_MS)]
  }

  lemma InscrireKeeps(s: seq<Entree>, jeton: string, recherche: nat, t: int)
    requires Ordonne(s) && |s| <= CAPACITE
    requires forall e :: e in s ==> e.recherche < recherche && e.jeton != jeton
    ensures var r := Inscrire(s, jeton, recherche, t);
            && Ordonne(r) && |r| <= CAPACITE
            && (forall e :: e in r ==> e == Entree(jeton, recherche, t + MEMO_MS) || e in s)
            && (forall e :: e in r && |s| == CAPACITE ==> s[0].recherche < e.recherche)
            && (forall e :: e in s ==> e in r || (|s| == CAPACITE && e == s[0]))
            && Entree(jeton, recherche, t + MEMO_MS) in r
  {
    var reste := if |s| >= CAPACITE then s[1..] else s;
    assert |s| >= CAPACITE ==> forall e :: e in s <==> e == s[0] || e in reste;
    OrdonneSnoc(reste, Entree(jeton, recherche, t + MEMO_MS));
  }

  lemma Keeping(r: seq<Entree>, s: seq<Entree>, i: nat, t: int)
    requires i < |s|
    ensures r + Vivantes(s[i..], t) == (if s[i].jusqua > t then r + [s[i]] else r) + Vivantes(s[i + 1..], t)
  {
    assert s[i..][0] == s[i] && s[i..][1..] == s[i + 1..];
  }

  /** The purge that opens each call. */
  method Purger(s: seq<Entree>, t: int) returns (r: seq<Entree>)
    ensures r == Vivantes(s, t)
  {
    r := [];
    for i := 0 to |s|
      invariant Vivantes(s, t) == r + Vivantes(s[i..], t)
    {
      Keeping(r, s, i, t);
      if s[i].jusqua > t { r := r + [s[i]]; }
    }
  }

  class Memo {
    var entrees: seq<Entree>
    var prochaine: nat

    constructor ()
      ensures entrees == [] && prochaine == 0
    {
      entrees, prochaine := [], 0;
    }

    /** `principalDeJeton` on an ES256 token, up to its first `await`: the lookup the caller will wait for. */
    method PrincipalDeJeton(jeton: string, t: int) returns (recherche: nat)
      modifies this
      ensures var vivantes := Vivantes(old(entrees), t);
              match Connu(vivantes, jeton)
              case Some(e) => recherche == e.recherche && entrees == vivantes && prochaine == old(prochaine)
              case None =>
                && recherche == old(prochaine) && prochaine == old(prochaine) + 1
                && entrees == Inscrire(vivantes, jeton, recherche, t)
    {
      entrees := Purger(entrees, t);
      var connu := Connu(entrees, jeton);
      if connu.Some? { return connu.value.recherche; }
      if |entrees| >= CAPACITE { entrees := entrees[1..]; }
      recherche := prochaine;
      prochaine := prochaine + 1;
      entrees := entrees + [Entree(jeton, recherche, t + MEMO_MS)];
    }

    /** `oublierPrincipal`, and what the handler of a rejected lookup does: the token's entry goes, whichever it is. */
    method Oublier(jeton: string)
      modifies this
      ensures entrees == Sans(old(entrees), jeton) && prochaine == old(prochaine)
      ensures forall j :: Connu(entrees, j) == if j == jeton then None else Connu(old(entrees), j)
    {
      forall j ensures Connu(Sans(entrees, jeton), j) == if j == jeton then None else Connu(entrees, j) {
        SansForgets(entrees, jeton, j);
      }
      entrees := Sans(entrees, jeton);
    }
  }

  // ------------------------------------------------------------------ every interleaving

  /** A lookup: its token and when it started. */
  datatype Recherche = Recherche(jeton: string, debut: int)

  /**
   The memo and what happened: every lookup in order, those whose promise is rejected, those whose
   rejection handler ran, those that left the memo otherwise than by age, and for each token how many
   lookups had started at its last forget.
   */
  datatype Sys = Sys(
    entrees: seq<Entree>,
    recherches: seq<Recherche>,
    rejetees: set<nat>,
    traitees: set<nat>,
    evincees: set<nat>,
    oubliees: set<nat>,
    horloge: int)

  const DEPART := Sys([], [], {}, {}, {}, {}, 0)

  datatype Acte =
    | Appel(jeton: string, t: int)
    | Rejet(id: nat)
    | Traitement(id: nat)
    | Oubli(jeton: string)

  predicate Possible(s: Sys, a: Acte) {
    match a
    case Appel(_, t) => t >= s.horloge
    case Rejet(id) => id < |s.recherches| && id !in s.rejetees
    case Traitement(id) => id < |s.recherches| && id in s.rejetees && id !in s.traitees
    case Oubli(_) => true
  }

  /** The lookups of a token started so far. */
  function DuJeton(s: Sys, jeton: string): set<nat> {
    set i: nat | i < |s.recherches| && s.recherches[i].jeton == jeton
  }

  /** The lookup a call waits for. */
  function Rendue(s: Sys, jeton: string, t: int): nat {
    match Connu(Vivantes(s.entrees, t), jeton)
    case Some(e) => e.recherche
    case None => |s.recherches|
  }

  function Next(s: Sys, a: Acte): Sys
    requires Possible(s, a)
  {
    match a
    case Appel(jeton, t) =>
      var v := Vivantes(s.entrees, t);
      if Connu(v, jeton).Some? then s.(entrees := v, horloge := t)
      else
        s.(entrees := Inscrire(v, jeton, |s.recherches|, t),
           recherches := s.recherches + [Recherche(jeton, t)],
           evincees := if |v| >= CAPACITE then s.evincees + {v[0].recherche} else s.evincees,
           horloge := t)
    case Rejet(id) => s.(rejetees := s.rejetees + {id})
    case Traitement(id) =>
      var jeton := s.recherches[id].jeton;
      s.(entrees := Sans(s.entrees, jeton), traitees := s.traitees + {id}, oubliees := s.oubliees + DuJeton(s, jeton))
    case Oubli(jeton) =>
      s.(entrees := Sans(s.entrees, jeton), oubliees := s.oubliees + DuJeton(s, jeton))
  }

  /**
   The memo holds at most a thousand entries, each for a lookup of its own token, none forgotten since it
   started; a lookup that is not in it left by age, eviction, or a forget.
   */
  ghost predicate Inv(s: Sys) {
    && |s.entrees| <= CAPACITE && Ordonne(s.entrees)
    && (forall e :: e in s.entrees ==> Juste(s, e))
    && s.traitees <= s.oubliees
    && HistoryInv(s)
  }

  /** Every lookup is accounted for: still in the memo, or gone by eviction, forget, or age. */
  ghost predicate HistoryInv(s: Sys) {
    && (forall i :: i in s.evincees || i in s.oubliees ==> i < |s.recherches|)
    && (forall i :: 0 <= i < |s.recherches| ==> s.recherches[i].debut <= s.horloge && Suivie(s, i))
  }

  ghost predicate Juste(s: Sys, e: Entree) {
    && e.recherche < |s.recherches| && s.recherches[e.recherche] == Recherche(e.jeton, e.jusqua - MEMO_MS)
    && e.recherche !in s.oubliees && e.recherche !in s.evincees
  }

  ghost predicate Suivie(s: Sys, i: nat)
    requires i < |s.recherches|
  {
    || Entree(s.recherches[i].jeton, i, s.recherches[i].debut + MEMO_MS) in s.entrees
    || i in s.evincees || i in s.oubliees || s.recherches[i].debut + MEMO_MS <= s.horloge
  }

  /** A lookup stays accounted for when its entry stays, expires, is evicted or is forgotten. */
  lemma StillTracked(s: Sys, s': Sys, i: nat)
    requires i < |s.recherches| && s.recherches <= s'.recherches && Suivie(s, i)
    requires s.oubliees <= s'.oubliees && s.evincees <= s'.evincees && s.horloge <= s'.horloge
    requires var x := Entree(s.recherches[i].jeton, i, s.recherches[i].debut + MEMO_MS);
             x in s.entrees ==> x in s'.entrees || i in s'.evincees || i in s'.oubliees || x.jusqua <= s'.horloge
    ensures Suivie(s', i)
  {
  }

  lemma HitKeeps(s: Sys, jeton: string, t: int)
    requires Inv(s) && t >= s.horloge && Connu(Vivantes(s.entrees, t), jeton).Some?
    ensures Inv(Next(s, Appel(jeton, t)))
  {
    var s' := Next(s, Appel(jeton, t));
    assert forall e :: e in s'.entrees ==> Juste(s, e) && Juste(s', e);
    forall i | 0 <= i < |s'.recherches| ensures s'.recherches[i].debut <= s'.horloge && Suivie(s', i) {
      StillTracked(s, s', i);
    }
  }

  lemma MissKeeps(s: Sys, jeton: string, t: int, v: seq<Entree>)
    requires Inv(s) && t >= s.horloge && v == Vivantes(s.entrees, t) && Connu(v, jeton).None?
    ensures Inv(Next(s, Appel(jeton, t)))
  {
    var s' := Next(s, Appel(jeton, t));
    MissKeepsEntries(s, jeton, t, v, s');
    MissShape(s, jeton, t, v, s');
    MissKeepsHistory(s, jeton, t, v, s');
  }

  /** What a call that found nothing changes, besides the entries. */
  lemma MissShape(s: Sys, jeton: string, t: int, v: seq<Entree>, s': Sys)
    requires t >= s.horloge && v == Vivantes(s.entrees, t) && Connu(v, jeton).None? && s' == Next(s, Appel(jeton, t))
    ensures s'.recherches == s.recherches + [Recherche(jeton, t)] && s'.horloge == t
    ensures s'.oubliees == s.oubliees && s'.traitees == s.traitees
    ensures s'.evincees == s.evincees + (if |v| >= CAPACITE then {v[0].recherche} else {})
  {
  }

  lemma MissKeepsHistory(s: Sys, jeton: string, t: int, v: seq<Entree>, s': Sys)
    requires HistoryInv(s) && t >= s.horloge && |v| <= CAPACITE
    requires s'.recherches == s.recherches + [Recherche(jeton, t)] && s'.horloge == t && s'.oubliees == s.oubliees
    requires s'.evincees == s.evincees + (if |v| >= CAPACITE then {v[0].recherche} else {})
    requires (forall e :: e in v ==> e.recherche < |s.recherches|) && forall e :: e in s.entrees && e.jusqua > t ==> e in v
    requires forall e :: e in v ==> e in s'.entrees || (|v| == CAPACITE && e == v[0])
    requires Entree(jeton, |s.recherches|, t + MEMO_MS) in s'.entrees
    ensures HistoryInv(s')
  {
    assert |v| >= CAPACITE ==> v[0] in v;
    NewIsTracked(s, jeton, t, s');
    forall i | 0 <= i < |s.recherches| ensures s'.recherches[i].debut <= s'.horloge && Suivie(s', i) {
      MissKeepsLookup(s, t, v, s', i);
    }
  }

  lemma NewIsTracked(s: Sys, jeton: string, t: int, s': Sys)
    requires s'.recherches == s.recherches + [Recherche(jeton, t)] && s'.horloge == t
    requires Entree(jeton, |s.recherches|, t + MEMO_MS) in s'.entrees
    ensures s'.recherches[|s.recherches|].debut <= s'.horloge && Suivie(s', |s.recherches|)
  {
  }

  lemma MissKeepsEntries(s: Sys, jeton: string, t: int, v: seq<Entree>, s': Sys)
    requires Inv(s) && t >= s.horloge && v == Vivantes(s.entrees, t) && Connu(v, jeton).None?
    requires s' == Next(s, Appel(jeton, t))
    ensures |s'.entrees| <= CAPACITE && Ordonne(s'.entrees)
    ensures forall e :: e in s'.entrees ==> Juste(s', e)
    ensures forall e :: e in v ==> e in s'.entrees || (|v| == CAPACITE && e == v[0])
    ensures Entree(jeton, |s.recherches|, t + MEMO_MS) in s'.entrees
  {
    NewerThan(s, jeton, t, v);
    InscrireKeeps(v, jeton, |s.recherches|, t);
    forall e | e in s'.entrees ensures Juste(s', e) { MissKeepsEntry(s, jeton, t, v, s', e); }
  }

  lemma NewerThan(s: Sys, jeton: string, t: int, v: seq<Entree>)
    requires Inv(s) && v == Vivantes(s.entrees, t) && Connu(v, jeton).None?
    ensures Ordonne(v) && |v| <= CAPACITE
    ensures forall e :: e in v ==> Juste(s, e) && e.recherche < |s.recherches| && e.jeton != jeton
  {
  }

  lemma MissKeepsEntry(s: Sys, jeton: string, t: int, v: seq<Entree>, s': Sys, e: Entree)
    requires t >= s.horloge && s' == Next(s, Appel(jeton, t)) && v == Vivantes(s.entrees, t) && Connu(v, jeton).None?
    requires e == Entree(jeton, |s.recherches|, t + MEMO_MS) || (e in v && Juste(s, e))
    requires |v| <= CAPACITE && (|v| == CAPACITE ==> v[0].recherche < e.recherche)
    requires forall i :: i in s.evincees || i in s.oubliees ==> i < |s.recherches|
    ensures Juste(s', e)
  {
  }

  lemma MissKeepsLookup(s: Sys, t: int, v: seq<Entree>, s': Sys, i: nat)
    requires i < |s.recherches| && Suivie(s, i) && t >= s.horloge && forall e :: e in s.entrees && e.jusqua > t ==> e in v
    requires s.recherches <= s'.recherches && s'.horloge == t && s.oubliees <= s'.oubliees
    requires s'.evincees == s.evincees + (if |v| >= CAPACITE then {v[0].recherche} else {})
    requires forall e :: e in v ==> e in s'.entrees || (|v| == CAPACITE && e == v[0])
    ensures Suivie(s', i)
  {
    var x := Entree(s.recherches[i].jeton, i, s.recherches[i].debut + MEMO_MS);
    assert x in s.entrees && x.jusqua > t ==> x in v;
    StillTracked(s, s', i);
  }

  lemma ForgetKeeps(s: Sys, a: Acte)
    requires Inv(s) && Possible(s, a) && !a.Appel?
    ensures Inv(Next(s, a))
  {
    var s' := Next(s, a);
    forall i | 0 <= i < |s'.recherches| ensures s'.recherches[i].debut <= s'.horloge && Suivie(s', i) {
      assert Suivie(s, i);
    }
  }

  lemma NextKeeps(s: Sys, a: Acte)
    requires Inv(s) && Possible(s, a)
    ensures Inv(Next(s, a))
  {
    if a.Appel? {
      var v := Vivantes(s.entrees, a.t);
      if Connu(v, a.jeton).Some? { HitKeeps(s, a.jeton, a.t); } else { MissKeeps(s, a.jeton, a.t, v); }
    } else {
      ForgetKeeps(s, a);
    }
  }

  /**
   What a call returns. A hit is a lookup of the same token, started less than 2000 ms ago, before which
   no forget of the token nor any handled rejection happened since it started. A miss starts a lookup,
   and only when every recent lookup of the token was forgotten or evicted.
   */
  lemma CallAgrees(s: Sys, jeton: string, t: int)
    requires Inv(s) && t >= s.horloge
    ensures var id := Rendue(s, jeton, t);
            if id < |s.recherches| then
              && s.recherches[id].jeton == jeton && 0 <= t - s.recherches[id].debut < 2_000
              && id !in s.oubliees && id !in s.traitees
            else
              forall i :: 0 <= i < |s.recherches| && s.recherches[i].jeton == jeton && t - s.recherches[i].debut < 2_000
                ==> i in s.oubliees || i in s.evincees
  {
    if Rendue(s, jeton, t) >= |s.recherches| {
      forall i | 0 <= i < |s.recherches| && s.recherches[i].jeton == jeton && t - s.recherches[i].debut < 2_000
        ensures i in s.oubliees || i in s.evincees
      {
        assert Suivie(s, i);
      }
    }
  }

  /** Making room evicts the oldest of a thousand live lookups, never another. */
  lemma EvictsTheOldest(s: Sys, jeton: string, t: int)
    requires Inv(s) && t >= s.horloge
    ensures var s' := Next(s, Appel(jeton, t));
            forall i :: i in s'.evincees - s.evincees ==>
              && |Vivantes(s.entrees, t)| == 1_000
              && forall e :: e in s'.entrees ==> i < e.recherche
  {
    var v := Vivantes(s.entrees, t);
    if Connu(v, jeton).None? && |v| >= 1_000 {
      assert forall e :: e in v[1..] ==> e in v;
    }
  }

  // ------------------------------------------------------------------ runs

  ghost predicate Run(states: seq<Sys>, actes: seq<Acte>) {
    && |states| == |actes| + 1 && states[0] == DEPART
    && forall k :: 0 <= k < |actes| ==> Possible(states[k], actes[k]) && states[k + 1] == Next(states[k], actes[k])
  }

  lemma {:induction false} RunKeeps(states: seq<Sys>, actes: seq<Acte>, k: nat)
    requires Run(states, actes) && k < |states|
    ensures Inv(states[k])
  {
    if k > 0 {
      RunKeeps(states, actes, k - 1);
      NextKeeps(states[k - 1], actes[k - 1]);
    }
  }

  lemma {:induction false} OnlyGrows(states: seq<Sys>, actes: seq<Acte>, j: nat, k: nat)
    requires Run(states, actes) && j <= k < |states|
    ensures states[j].recherches <= states[k].recherches
    ensures states[j].oubliees <= states[k].oubliees
    decreases k - j
  {
    if j < k {
      OnlyGrows(states, actes, j + 1, k);
      assert states[j + 1] == Next(states[j], actes[j]);
    }
  }

  /**
   In every run: a call made after a forget of its token, or after the rejection handler of a lookup of
   it ran, never waits for a lookup that had started by then.
   */
  lemma NothingStaleIsReturned(states: seq<Sys>, actes: seq<Acte>, j: nat, k: nat)
    requires Run(states, actes) && j < k < |actes| && actes[k].Appel?
    requires var jeton := actes[k].jeton;
             || actes[j] == Oubli(jeton)
             || (actes[j].Traitement? && Possible(states[j], actes[j]) && states[j].recherches[actes[j].id].jeton == jeton)
    ensures Rendue(states[k], actes[k].jeton, actes[k].t) >= |states[j].recherches|
    ensures |states[k].entrees| <= 1_000
  {
    RunKeeps(states, actes, k);
    CallAgrees(states[k], actes[k].jeton, actes[k].t);
    OnlyGrows(states, actes, j + 1, k);
    assert states[j + 1] == Next(states[j], actes[j]);
    assert forall i :: 0 <= i < |states[j].recherches| ==> states[j].recherches[i] == states[k].recherches[i];
    assert DuJeton(states[j], actes[k].jeton) <= states[k].oubliees;
  }

  /**
   The step takes lookup `id` out of the memo: a forget of its token, the rejection handler of any lookup
   of its token, or a call that starts a lookup while a thousand others live and `id` is the first of them.
   */
  predicate Emporte(s: Sys, a: Acte, id: nat)
    requires id < |s.recherches|
  {
    match a
    case Appel(jeton, t) =>
      var v := Vivantes(s.entrees, t);
      Connu(v, jeton).None? && |v| >= CAPACITE && v[0].recherche == id
    case Rejet(_) => false
    case Traitement(j) => j < |s.recherches| && s.recherches[j].jeton == s.recherches[id].jeton
    case Oubli(jeton) => s.recherches[id].jeton == jeton
  }

  /** No step before the k-th took lookup `id` out of the memo once it had started. */
  ghost predicate Intacte(states: seq<Sys>, actes: seq<Acte>, k: nat, id: nat)
    requires k <= |actes| <= |states|
  {
    forall j :: 0 <= j < k && id < |states[j].recherches| ==> !Emporte(states[j], actes[j], id)
  }

  predicate Partie(s: Sys, id: nat) {
    id in s.oubliees || id in s.evincees
  }

  predicate Retiree(s: Sys, a: Acte, id: nat) {
    id < |s.recherches| && Emporte(s, a, id)
  }

  lemma StepTakesOut(s: Sys, a: Acte, s': Sys, id: nat)
    requires Inv(s) && Possible(s, a) && s' == Next(s, a)
    ensures Partie(s', id) <==> Partie(s, id) || Retiree(s, a, id)
  {
    if a.Appel? {
      var v := Vivantes(s.entrees, a.t);
      assert |v| >= CAPACITE ==> v[0] in v && Juste(s, v[0]);
    }
  }

  lemma IntacteStep(states: seq<Sys>, actes: seq<Acte>, k: nat, id: nat)
    requires 0 < k <= |actes| <= |states|
    ensures Intacte(states, actes, k, id) <==> Intacte(states, actes, k - 1, id) && !Retiree(states[k - 1], actes[k - 1], id)
  {
  }

  /** What the memo lost otherwise than by age, told on the steps of the run. */
  lemma {:induction false} TakenOutBySteps(states: seq<Sys>, actes: seq<Acte>, k: nat, id: nat)
    requires Run(states, actes) && k <= |actes|
    ensures Partie(states[k], id) <==> !Intacte(states, actes, k, id)
  {
    if k > 0 {
      var s, s', a := states[k - 1], states[k], actes[k - 1];
      TakenOutBySteps(states, actes, k - 1, id);
      RunKeeps(states, actes, k - 1);
      assert Possible(s, a) && s' == Next(s, a);
      StepTakesOut(s, a, s', id);
      IntacteStep(states, actes, k, id);
    }
  }

  lemma StepRejects(s: Sys, a: Acte, id: nat)
    requires Possible(s, a)
    ensures id in Next(s, a).rejetees <==> id in s.rejetees || a == Rejet(id)
  {
  }

  /** What is rejected, told on the steps of the run. */
  lemma {:induction false} RejectedBySteps(states: seq<Sys>, actes: seq<Acte>, k: nat, id: nat)
    requires Run(states, actes) && k <= |actes|
    ensures id in states[k].rejetees <==> Rejet(id) in actes[..k]
  {
    if k > 0 {
      RejectedBySteps(states, actes, k - 1, id);
      StepRejects(states[k - 1], actes[k - 1], id);
      assert actes[..k] == actes[..k - 1] + [actes[k - 1]];
    }
  }

  /** A call waits for the one recent lookup of its token that is still in the memo. */
  lemma YoungAndInPlace(s: Sys, jeton: string, t: int, id: nat)
    requires Inv(s) && t >= s.horloge && id < |s.recherches| && s.recherches[id].jeton == jeton
    ensures Rendue(s, jeton, t) == id
       <==> t - s.recherches[id].debut < MEMO_MS && !Partie(s, id)
  {
    var v := Vivantes(s.entrees, t);
    var x := Entree(jeton, id, s.recherches[id].debut + MEMO_MS);
    assert Suivie(s, id);
    if x in s.entrees && x.jusqua > t { YoungIsFound(s, v, t, x); }
    InPlace(s, jeton, t, id, Connu(v, jeton));
  }

  lemma InPlace(s: Sys, jeton: string, t: int, id: nat, connu: Option<Entree>)
    requires id < |s.recherches| && s.recherches[id].jeton == jeton && Suivie(s, id) && t >= s.horloge
    requires connu.Some? ==> Juste(s, connu.value) && connu.value.jusqua > t
    requires var x := Entree(jeton, id, s.recherches[id].debut + MEMO_MS);
             x in s.entrees && x.jusqua > t ==> connu == Some(x)
    ensures connu.Some? && connu.value.recherche == id <==> t - s.recherches[id].debut < MEMO_MS && !Partie(s, id)
  {
    if connu.Some? { FoundIsYoung(s, connu.value, t); }
  }

  lemma FoundIsYoung(s: Sys, e: Entree, t: int)
    requires Juste(s, e) && e.jusqua > t
    ensures t - s.recherches[e.recherche].debut < MEMO_MS && !Partie(s, e.recherche)
  {
  }

  lemma YoungIsFound(s: Sys, v: seq<Entree>, t: int, x: Entree)
    requires Ordonne(s.entrees) && v == Vivantes(s.entrees, t) && x in s.entrees && x.jusqua > t
    ensures Connu(v, x.jeton) == Some(x)
  {
    assert x in v;
    TokenIsUnique(v, x, Connu(v, x.jeton).value);
  }

  /**
   In every run, a call waits for lookup `id` of its token exactly when it comes less than 2000 ms after
   that lookup started and no step took it out of the memo; so it waits for a lookup already rejected
   exactly when it comes, besides, after the rejection: between it and the next handler or forget of the
   token, its eviction, or its end of life.
   */
  lemma RejectedIsReturnedExactly(states: seq<Sys>, actes: seq<Acte>, k: nat, id: nat)
    requires Run(states, actes) && k < |actes| && actes[k].Appel?
    requires id < |states[k].recherches| && states[k].recherches[id].jeton == actes[k].jeton
    ensures Rendue(states[k], actes[k].jeton, actes[k].t) == id
       <==> actes[k].t - states[k].recherches[id].debut < 2_000 && Intacte(states, actes, k, id)
    ensures Rendue(states[k], actes[k].jeton, actes[k].t) == id && id in states[k].rejetees
       <==> actes[k].t - states[k].recherches[id].debut < 2_000 && Intacte(states, actes, k, id) && Rejet(id) in actes[..k]
  {
    RunKeeps(states, actes, k);
    TakenOutBySteps(states, actes, k, id);
    RejectedBySteps(states, actes, k, id);
    YoungAndInPlace(states[k], actes[k].jeton, actes[k].t, id);
  }

  lemma {:induction false} TokenIsUnique(s: seq<Entree>, a: Entree, b: Entree)
    requires Ordonne(s) && a in s && b in s && a.jeton == b.jeton
    ensures a == b
  {
    if a != s[0] && b != s[0] {
      TokenIsUnique(s[1..], a, b);
    }
  }

  /** The gap, on one run: a call between the rejection and its handler waits for the rejected lookup. */
  lemma RejectedLookupIsReturned()
    ensures var s1 := Next(DEPART, Appel("j", 0));
            Possible(s1, Rejet(0)) && Rendue(Next(s1, Rejet(0)), "j", 1) == 0
  {
    var s1 := Next(DEPART, Appel("j", 0));
    assert Vivantes([], 0) == [] && Connu([], "j") == None;
    assert s1.entrees == [Entree("j", 0, MEMO_MS)];
    assert Vivantes(s1.entrees, 1) == [Entree("j", 0, MEMO_MS)];
    assert 0 !in s1.rejetees;
  }
}
