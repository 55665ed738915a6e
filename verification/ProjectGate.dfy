/**
 The middleware of the console as a machine that answers requests: who may pass without a session, the
 read-only demo, and the project gate that reconciles `?app` with the project cookie by redirects.
 */
module ProjectGate {
  import opened Basics

  // ------------------------------------------------------------------ query parameters

  /** `URLSearchParams`: pairs in order, a name possibly several times. */
  type Params = seq<(string, string)>

  function Get(p: Params, k: string): Option<string> {
    if p == [] then None else if p[0].0 == k then Some(p[0].1) else Get(p[1..], k)
  }

  function Delete(p: Params, k: string): (r: Params)
    ensures Get(r, k) == None
    ensures forall j :: j != k ==> Get(r, j) == Get(p, j)
  {
    if p == [] then []
    else
      var r := Delete(p[1..], k);
      if p[0].0 == k then r
      else
        assert ([p[0]] + r)[1..] == r;
        [p[0]] + r
  }

  /** `set`: the first occurrence takes the value, the others go. */
  function Set(p: Params, k: string, v: string): (r: Params)
    ensures Get(r, k) == Some(v)
    ensures forall j :: j != k ==> Get(r, j) == Get(p, j)
  {
    if p == [] then
      assert [(k, v)][1..] == [];
      [(k, v)]
    else if p[0].0 == k then
      var r := Delete(p[1..], k);
      assert ([(k, v)] + r)[1..] == r;
      [(k, v)] + r
    else
      var r := Set(p[1..], k, v);
      assert ([p[0]] + r)[1..] == r;
      [p[0]] + r
  }

  const MINUTE := 60_000
  const RANGE_MAX := 30 * 24 * 60 * MINUTE

  /** What the text of the alias and of an instant comes to is left to the two functions. */
  datatype Textes = Textes(normalise: string -> string, iso: int -> string)

  function ValeurAlias(brut: string): string {
    if brut == "1d" || brut == "1j" then "24h" else if brut == "7j" then "7d" else if brut == "30j" then "30d" else brut
  }

  /** `canoniserAliasPlage`: the parameters without the alias `range`, or `None` when there is none. */
  function CanoniserAlias(p: Params, now: int, textes: Textes): Option<Params> {
    if Get(p, "range").None? then None
    else
      var sans := Delete(p, "range");
      if Get(sans, "period").Some? || Get(sans, "from").Some? || Get(sans, "to").Some? then Some(sans)
      else
        var valeur := ValeurAlias(textes.normalise(Get(p, "range").value));
        if valeur == "30d" then
          var to := now / MINUTE * MINUTE;
          Some(Set(Set(sans, "from", textes.iso(to - RANGE_MAX)), "to", textes.iso(to)))
        else if valeur == "1h" || valeur == "7d" then Some(Set(sans, "period", valeur))
        else Some(sans)
  }

  /** The rewrite is needed once, touches only the range, and never the meaning of a range already given. */
  lemma AliasIsRewrittenOnce(p: Params, now: int, textes: Textes, later: int)
    requires CanoniserAlias(p, now, textes).Some?
    ensures var q := CanoniserAlias(p, now, textes).value;
            && CanoniserAlias(q, later, textes) == None
            && (forall k :: k !in {"range", "period", "from", "to"} ==> Get(q, k) == Get(p, k))
            && ((exists k :: k in {"period", "from", "to"} && Get(p, k).Some?) ==>
                 forall k :: k != "range" ==> Get(q, k) == Get(p, k))
  {
  }

  // ------------------------------------------------------------------ sessions and requests

  /** A principal: the apps of its scope (`None`: all of them), and whether it is the demo. */
  datatype SessionUser = SessionUser(apps: Option<set<string>>, demo: bool)

  /** What the service answers about a session: its principal (or a refusal), or nothing. */
  datatype Moi = Principal(user: Option<SessionUser>) | Panne

  /** The session cookie: none, one the console signed, or one of console-api (its verified demo flag). */
  datatype Jeton = SansJeton | Hs256(user: Option<SessionUser>) | Es256(local: Option<bool>, moi: Moi)

  datatype Requete = Requete(methode: string, chemin: string, params: Params)

  datatype Reponse =
    | Hors                                        // not covered by the middleware (`matcher`)
    | Passe(projet: Option<string>)               // served; the project cookie is set if `Some`
    | Redirige(chemin: string, params: Params)
    | Refus(statut: int)

  predicate StartsWith(chemin: string, prefixe: string) {
    prefixe <= chemin
  }

  /** What the matcher leaves out: the sign-in page, the SDK, static files. */
  predicate Exclu(chemin: string) {
    || StartsWith(chemin, "/login") || StartsWith(chemin, "/mip-rum") || StartsWith(chemin, "/_next/")
    || StartsWith(chemin, "/favicon") || StartsWith(chemin, "/vendor") || StartsWith(chemin, "/downloads")
    || StartsWith(chemin, "/portail") || StartsWith(chemin, "/vitrine/")
  }

  /** Routes that authenticate themselves. */
  predicate Contourne(chemin: string) {
    || StartsWith(chemin, "/api/auth/") || chemin == "/api/live" || StartsWith(chemin, "/api/v1")
    || StartsWith(chemin, "/api/rum") || StartsWith(chemin, "/api/extension") || StartsWith(chemin, "/api/ingest")
    || chemin == "/demo" || chemin == "/api/sourcemaps"
  }

  const CHEMINS_MENU := [
    "/presentation/installation",
    "/presentation/installation/sdk-javascript",
    "/presentation/installation/extension",
    "/presentation/installation/serveur",
    "/presentation/a-faire",
    "/presentation/graphe-technique"]

  predicate EstPublic(chemin: string) {
    || chemin == "/presentation" || chemin == "/presentation/open-source" || chemin in CHEMINS_MENU
    || chemin == "/inscription" || chemin == "/extension-privacy" || chemin == "/legal" || StartsWith(chemin, "/legal/")
  }

  predicate EstPageDeConsole(req: Requete) {
    && req.methode == "GET" && !StartsWith(req.chemin, "/api/") && !StartsWith(req.chemin, "/admin")
    && req.chemin != "/select" && !StartsWith(req.chemin, "/select/") && !EstPublic(req.chemin)
  }

  /** What stands for a principal where only the demo flag matters: a scope of no app. */
  function Substitut(demo: bool): SessionUser {
    SessionUser(Some({}), demo)
  }

  /** The principal of a request: a console page asks the service, any other request only needs the demo flag. */
  function Resolu(req: Requete, jeton: Jeton): Moi {
    match jeton
    case SansJeton => Principal(None)
    case Hs256(user) => Principal(user)
    case Es256(local, moi) =>
      if local.None? then Principal(None)
      else if !EstPageDeConsole(req) then Principal(Some(Substitut(local.value)))
      else moi
  }

  // ------------------------------------------------------------------ the gate

  predicate Present(s: Option<string>) {
    s.Some? && s.value != ""
  }

  predicate DansPerimetre(app: string, perimetre: Option<set<string>>) {
    perimetre.Some? ==> app in perimetre.value
  }

  /** The project of a page: the one named, else the cookie's, else the only one of the scope. */
  ghost function Projet(demande: Option<string>, cookie: Option<string>, perimetre: Option<set<string>>): Option<string> {
    if Present(demande) && DansPerimetre(demande.value, perimetre) then demande
    else if Present(cookie) && DansPerimetre(cookie.value, perimetre) then cookie
    else if perimetre.Some? && |perimetre.value| == 1 && Pick(perimetre.value) != "" then Some(Pick(perimetre.value))
    else None
  }

  /** What the gate answers to a page whose parameters carry no alias. */
  ghost function Porte(chemin: string, params: Params, cookie: Option<string>, perimetre: Option<set<string>>): Reponse {
    var demande := Get(params, "app");
    if perimetre == Some({}) then Redirige("/select", [])
    else if Present(demande) && demande.value != "all" && !DansPerimetre(demande.value, perimetre) then
      Redirige("/select", [("hors_perimetre", demande.value)])
    else
      var projet := Projet(demande, cookie, perimetre);
      if projet.None? then Redirige("/select", [])
      else if demande == projet then Passe(if cookie == projet then None else projet)
      else Redirige(chemin, Set(params, "app", projet.value))
  }

  lemma OnlyElement(s: set<string>, x: string)
    requires |s| == 1 && x in s
    ensures x == Pick(s)
  {
    if x != Pick(s) {
      SubsetSize({x, Pick(s)}, s);
    }
  }

  /** The gate step by step: `eff` starts as the app named and is replaced as the source does. */
  method PorteProjet(chemin: string, params: Params, cookie: Option<string>, perimetre: Option<set<string>>)
    returns (r: Reponse)
    ensures r == Porte(chemin, params, cookie, perimetre)
  {
    var demande := Get(params, "app");
    if perimetre.Some? && |perimetre.value| == 0 {
      return Redirige("/select", []);
    }
    if Present(demande) && demande.value != "all" && perimetre.Some? && demande.value !in perimetre.value {
      return Redirige("/select", Set([], "hors_perimetre", demande.value));
    }
    var eff := demande;
    if perimetre.Some? && (!Present(eff) || eff.value !in perimetre.value) {
      eff := None;
    }
    if !Present(eff) {
      if Present(cookie) && (perimetre.None? || cookie.value in perimetre.value) {
        eff := cookie;
      } else if perimetre.Some? && |perimetre.value| == 1 {
        var seule :| seule in perimetre.value;
        OnlyElement(perimetre.value, seule);
        eff := Some(seule);
      }
    }
    if !Present(eff) {
      return Redirige("/select", []);
    }
    if demande != eff {
      return Redirige(chemin, Set(params, "app", eff.value));
    }
    if cookie != eff {
      return Passe(eff);
    }
    return Passe(None);
  }

  ghost function Middleware(req: Requete, jeton: Jeton, cookie: Option<string>, now: int, textes: Textes): Reponse {
    if Exclu(req.chemin) then Hors
    else if Contourne(req.chemin) then Passe(None)
    else
      var resolu := Resolu(req, jeton);
      if resolu == Panne then Refus(503)
      else if resolu.user.None? then
        if EstPublic(req.chemin) then Passe(None)
        else if req.chemin == "/" then Redirige("/presentation", [])
        else Redirige("/login", [])
      else
        var user := resolu.user.value;
        if req.chemin == "/inscription" && !user.demo && req.methode == "GET" then Redirige("/", [])
        else if user.demo && req.methode !in {"GET", "HEAD"} && req.chemin !in {"/logout", "/select", "/inscription"} then Refus(403)
        else if !EstPageDeConsole(req) then Passe(None)
        else if CanoniserAlias(req.params, now, textes).Some? then Redirige(req.chemin, CanoniserAlias(req.params, now, textes).value)
        else Porte(req.chemin, req.params, cookie, user.apps)
  }

  // ------------------------------------------------------------------ who passes

  /** The request reaches the console: the matcher takes it, and its route does not authenticate itself. */
  predicate Gardee(req: Requete) {
    !Exclu(req.chemin) && !Contourne(req.chemin)
  }

  /** Nobody is signed in: no token, one that is not valid, or one whose page the service refuses. */
  predicate SansPrincipal(req: Requete, jeton: Jeton) {
    match jeton
    case SansJeton => true
    case Hs256(user) => user.None?
    case Es256(local, moi) => local.None? || (EstPageDeConsole(req) && moi.Principal? && moi.user.None?)
  }

  /** A page of the console is read by GET, outside the API, the administration, the selector and the public pages. */
  lemma PageExactly(req: Requete)
    ensures EstPageDeConsole(req) <==>
              && req.methode == "GET" && req.chemin != "/select" && !EstPublic(req.chemin)
              && forall prefixe :: prefixe in ["/api/", "/admin", "/select/"] ==> !(prefixe <= req.chemin)
  {
    var prefixes := ["/api/", "/admin", "/select/"];
    assert prefixes[0] in prefixes && prefixes[1] in prefixes && prefixes[2] in prefixes;
  }

  /** What is read without a session: the presentation and its pages of the menu, the registration, the privacy of the extension, the legal texts. */
  lemma PublicExactly(chemin: string)
    ensures EstPublic(chemin) <==>
              || chemin in ["/presentation", "/presentation/open-source", "/inscription", "/extension-privacy", "/legal"]
              || chemin in CHEMINS_MENU || "/legal/" <= chemin
  {
    var pages := ["/presentation", "/presentation/open-source", "/inscription", "/extension-privacy", "/legal"];
    assert pages[0] in pages && pages[1] in pages && pages[2] in pages && pages[3] in pages && pages[4] in pages;
  }

  /** Without a session a guarded request passes if and only if its path is public; else it is sent to sign in, or from the home page to the presentation. */
  lemma WithoutSession(req: Requete, jeton: Jeton, cookie: Option<string>, now: int, textes: Textes)
    requires Gardee(req) && SansPrincipal(req, jeton)
    ensures var r := Middleware(req, jeton, cookie, now, textes);
            && (r == Passe(None) <==> EstPublic(req.chemin))
            && (r.Passe? ==> r.projet == None)
            && (!EstPublic(req.chemin) ==> r == Redirige(if req.chemin == "/" then "/presentation" else "/login", []))
  {
  }

  /** Whoever is not signed in ends up reading the sign-in page, even from a form that was sent. */
  lemma SentToSignIn(req: Requete, jeton: Jeton, cookie: Option<string>, now: int, textes: Textes)
    requires Gardee(req) && SansPrincipal(req, jeton) && !EstPublic(req.chemin) && req.chemin != "/"
    requires req.methode == "GET" || req.methode == "POST"
    ensures var r := Middleware(req, jeton, cookie, now, textes);
            r.Redirige? && Suivre(req, r) == Requete("GET", "/login", [])
  {
  }

  /** The paths the middleware is not called on. */
  lemma OutsideExactly(chemin: string)
    ensures !Exclu(chemin) <==>
              forall p :: p in {"/login", "/mip-rum", "/_next/", "/favicon", "/vendor", "/downloads", "/portail", "/vitrine/"} ==> !StartsWith(chemin, p)
  {
  }

  /** The routes whose handler authenticates its caller. */
  lemma SelfGuardedExactly(chemin: string)
    ensures !Contourne(chemin) <==>
              && (forall p :: p in {"/api/auth/", "/api/v1", "/api/rum", "/api/extension", "/api/ingest"} ==> !StartsWith(chemin, p))
              && chemin !in {"/api/live", "/demo", "/api/sourcemaps"}
  {
  }

  /** The administration and its API are guarded, and never public. */
  lemma AdminIsClosed(req: Requete, jeton: Jeton, cookie: Option<string>, now: int, textes: Textes)
    requires StartsWith(req.chemin, "/admin") || StartsWith(req.chemin, "/api/admin")
    ensures Gardee(req) && !EstPublic(req.chemin)
    ensures SansPrincipal(req, jeton) ==> Middleware(req, jeton, cookie, now, textes) == Redirige("/login", [])
  {
    AdminIsGuarded(req.chemin);
    AdminIsNotPublic(req.chemin);
  }

  /** A path that differs from a text within its length does not begin with it. */
  lemma Apart(chemin: string, texte: string, k: nat)
    requires k < |chemin| && k < |texte| && chemin[k] != texte[k]
    ensures !StartsWith(chemin, texte) && chemin != texte
  {
  }

  lemma AdminIsGuarded(chemin: string)
    requires StartsWith(chemin, "/admin") || StartsWith(chemin, "/api/admin")
    ensures !Exclu(chemin) && !Contourne(chemin)
  {
    assert chemin[1] == 'a';
    var k := if StartsWith(chemin, "/admin") then 2 else 5;
    assert chemin[k] == if k == 2 then 'd' else 'a';
    assert k == 5 ==> chemin[6] == 'd';
    Apart(chemin, "/login", 1);
    Apart(chemin, "/mip-rum", 1);
    Apart(chemin, "/_next/", 1);
    Apart(chemin, "/favicon", 1);
    Apart(chemin, "/vendor", 1);
    Apart(chemin, "/downloads", 1);
    Apart(chemin, "/portail", 1);
    Apart(chemin, "/vitrine/", 1);
    Apart(chemin, "/demo", 1);
    Apart(chemin, "/api/auth/", if k == 2 then 2 else 6);
    Apart(chemin, "/api/live", k);
    Apart(chemin, "/api/v1", k);
    Apart(chemin, "/api/rum", k);
    Apart(chemin, "/api/extension", k);
    Apart(chemin, "/api/ingest", k);
    Apart(chemin, "/api/sourcemaps", k);
  }

  lemma AdminIsNotPublic(chemin: string)
    requires StartsWith(chemin, "/admin") || StartsWith(chemin, "/api/admin")
    ensures !EstPublic(chemin)
  {
    assert chemin[1] == 'a';
    forall texte | texte in CHEMINS_MENU ensures chemin != texte { Apart(chemin, texte, 1); }
    Apart(chemin, "/presentation", 1);
    Apart(chemin, "/presentation/open-source", 1);
    Apart(chemin, "/inscription", 1);
    Apart(chemin, "/extension-privacy", 1);
    Apart(chemin, "/legal", 1);
    Apart(chemin, "/legal/", 1);
  }

  /** The demo reads and signs out, nothing else: 403 for it alone, and exactly when it would write. A service that does not answer is 503. */
  lemma RefusedExactly(req: Requete, jeton: Jeton, cookie: Option<string>, now: int, textes: Textes)
    requires Gardee(req)
    ensures var r := Middleware(req, jeton, cookie, now, textes);
            && (r == Refus(403) <==>
                 && Demo(req, jeton) && req.methode != "GET" && req.methode != "HEAD"
                 && req.chemin != "/logout" && req.chemin != "/select" && req.chemin != "/inscription")
            && (r == Refus(503) <==> jeton.Es256? && jeton.local.Some? && EstPageDeConsole(req) && jeton.moi == Panne)
            && (r.Refus? ==> r.statut == 403 || r.statut == 503)
  {
  }

  /** The session is the demo's: as the service says of a page, as the token says of any other request. */
  predicate Demo(req: Requete, jeton: Jeton) {
    match jeton
    case SansJeton => false
    case Hs256(user) => user.Some? && user.value.demo
    case Es256(local, moi) =>
      && local.Some?
      && (if EstPageDeConsole(req) then moi.Principal? && moi.user.Some? && moi.user.value.demo else local.value)
  }

  /** With a session, whatever is not a console page passes and leaves the project alone, but what the demo may not do and the registration page. */
  lemma OtherRequestsPass(req: Requete, jeton: Jeton, cookie: Option<string>, now: int, textes: Textes)
    requires Gardee(req) && !SansPrincipal(req, jeton) && !EstPageDeConsole(req)
    ensures var r := Middleware(req, jeton, cookie, now, textes);
            if req.chemin == "/inscription" && req.methode == "GET" && !Demo(req, jeton) then r == Redirige("/", [])
            else r == Passe(None) || r == Refus(403)
  {
  }

  // ------------------------------------------------------------------ what the alias means

  /** An alias that comes alone becomes the range it names, thirty days being dated to the minute; one that names none is dropped, and so the default applies. */
  lemma AliasMeans(p: Params, now: int, textes: Textes, v: string)
    requires Get(p, "range").Some? && Get(p, "period").None? && Get(p, "from").None? && Get(p, "to").None?
    requires v == textes.normalise(Get(p, "range").value)
    ensures CanoniserAlias(p, now, textes).Some?
    ensures var q := CanoniserAlias(p, now, textes).value;
            if v == "30d" || v == "30j" then
              var minute := now - now % 60_000;
              Reads(q, None, Some(textes.iso(minute - 2_592_000_000)), Some(textes.iso(minute)))
            else Reads(q, if v == "1h" then Some("1h") else if v == "7d" || v == "7j" then Some("7d") else None, None, None)
  {
    var sans, valeur := Delete(p, "range"), ValeurAlias(v);
    AliasValue(v);
    FloorToMinute(now);
    if valeur == "30d" {
      Dated(sans, textes.iso(now / MINUTE * MINUTE - RANGE_MAX), textes.iso(now / MINUTE * MINUTE));
    } else if valeur == "1h" || valeur == "7d" {
      Preset(sans, valeur);
    }
  }

  /** The range that parameters without alias carry. */
  predicate Reads(q: Params, period: Option<string>, from: Option<string>, to: Option<string>) {
    Get(q, "range") == None && Get(q, "period") == period && Get(q, "from") == from && Get(q, "to") == to
  }

  lemma FloorToMinute(now: int)
    ensures now / MINUTE * MINUTE == now - now % 60_000
  {
  }

  lemma AliasValue(v: string)
    ensures ValeurAlias(v) == "30d" <==> v == "30d" || v == "30j"
    ensures ValeurAlias(v) == "7d" <==> v == "7d" || v == "7j"
    ensures ValeurAlias(v) == "1h" <==> v == "1h"
  {
  }

  lemma Dated(sans: Params, from: string, to: string)
    requires Reads(sans, None, None, None)
    ensures Reads(Set(Set(sans, "from", from), "to", to), None, Some(from), Some(to))
  {
    assert Reads(Set(sans, "from", from), None, Some(from), None);
  }

  lemma Preset(sans: Params, valeur: string)
    requires Reads(sans, None, None, None)
    ensures Reads(Set(sans, "period", valeur), Some(valeur), None, None)
  {
  }

  // ------------------------------------------------------------------ redirects settle

  /** A client follows a 302: a POST becomes a GET, any other method is kept. */
  function Suivre(req: Requete, r: Reponse): Requete
    requires r.Redirige?
  {
    Requete(if req.methode == "POST" then "GET" else req.methode, r.chemin, r.params)
  }

  /** The answer reached by following at most `|nows| - 1` redirects, each request at its own instant. */
  ghost function Aboutit(req: Requete, jeton: Jeton, cookie: Option<string>, nows: seq<int>, textes: Textes): Reponse
    requires nows != []
    decreases |nows|
  {
    var r := Middleware(req, jeton, cookie, nows[0], textes);
    if r.Redirige? && |nows| > 1 then Aboutit(Suivre(req, r), jeton, cookie, nows[1..], textes) else r
  }

  /** Where a request without a session is sent answers without redirecting. */
  lemma PublicLanding(req: Requete, jeton: Jeton, cookie: Option<string>, now: int, textes: Textes)
    requires req.chemin in {"/login", "/presentation"}
    ensures !Middleware(req, jeton, cookie, now, textes).Redirige?
  {
    assert "/login"[..6] == "/login";
  }

  /** So does the selector, for a session that has a principal. */
  lemma SelectorLanding(req: Requete, jeton: Jeton, cookie: Option<string>, now: int, textes: Textes)
    requires req.chemin == "/select" && Resolu(req, jeton) != Principal(None)
    ensures !Middleware(req, jeton, cookie, now, textes).Redirige?
  {
  }

  /** Once the gate has named the project, the same page passes. */
  lemma NamedProjectPasses(params: Params, cookie: Option<string>, perimetre: Option<set<string>>, chemin: string)
    requires Porte(chemin, params, cookie, perimetre).Redirige? && Porte(chemin, params, cookie, perimetre).chemin == chemin
    requires chemin != "/select"
    ensures Porte(chemin, Porte(chemin, params, cookie, perimetre).params, cookie, perimetre).Passe?
    ensures Get(params, "range") == None ==> Get(Porte(chemin, params, cookie, perimetre).params, "range") == None
  {
    var projet := Projet(Get(params, "app"), cookie, perimetre);
    if perimetre.Some? && Present(projet) && |perimetre.value| == 1 { assert Pick(perimetre.value) in perimetre.value; }
  }

  /** A page without alias redirects at most once. */
  lemma GateRedirectsOnce(req: Requete, jeton: Jeton, cookie: Option<string>, now: int, later: int, textes: Textes)
    requires EstPageDeConsole(req) && Get(req.params, "range") == None
    requires Middleware(req, jeton, cookie, now, textes).Redirige?
    ensures !Middleware(Suivre(req, Middleware(req, jeton, cookie, now, textes)), jeton, cookie, later, textes).Redirige?
  {
    var r := Middleware(req, jeton, cookie, now, textes);
    var suite := Suivre(req, r);
    if suite.chemin in {"/login", "/presentation"} {
      PublicLanding(suite, jeton, cookie, later, textes);
    } else if r.chemin == "/select" {
      SelectorLanding(suite, jeton, cookie, later, textes);
    } else {
      NamedProjectPasses(req.params, cookie, Resolu(req, jeton).user.value.apps, req.chemin);
    }
  }

  /** The first redirect of any other request leads to a page without alias, or to a page that answers. */
  lemma FirstRedirect(req: Requete, jeton: Jeton, cookie: Option<string>, now: int, later: int, textes: Textes)
    requires Middleware(req, jeton, cookie, now, textes).Redirige?
    requires !EstPageDeConsole(req) || Get(req.params, "range") != None
    ensures var suite := Suivre(req, Middleware(req, jeton, cookie, now, textes));
            || (EstPageDeConsole(suite) && Get(suite.params, "range") == None)
            || !Middleware(suite, jeton, cookie, later, textes).Redirige?
  {
    var r := Middleware(req, jeton, cookie, now, textes);
    var suite := Suivre(req, r);
    if suite.chemin in {"/login", "/presentation"} {
      PublicLanding(suite, jeton, cookie, later, textes);
    } else if EstPageDeConsole(req) {
      AliasRedirect(req, jeton, cookie, now, later, textes);
    } else {
      assert suite == Requete("GET", "/", []);
    }
  }

  lemma AliasRedirect(req: Requete, jeton: Jeton, cookie: Option<string>, now: int, later: int, textes: Textes)
    requires EstPageDeConsole(req) && Get(req.params, "range") != None
    requires Middleware(req, jeton, cookie, now, textes).Redirige?
    requires Suivre(req, Middleware(req, jeton, cookie, now, textes)).chemin !in {"/login", "/presentation"}
    ensures var suite := Suivre(req, Middleware(req, jeton, cookie, now, textes));
            EstPageDeConsole(suite) && Get(suite.params, "range") == None
  {
    AliasIsAnswered(req, jeton, cookie, now, textes);
    AliasIsRewrittenOnce(req.params, now, textes, later);
  }

  lemma AliasIsAnswered(req: Requete, jeton: Jeton, cookie: Option<string>, now: int, textes: Textes)
    requires EstPageDeConsole(req) && Get(req.params, "range") != None
    requires Middleware(req, jeton, cookie, now, textes).Redirige?
    requires Middleware(req, jeton, cookie, now, textes).chemin !in {"/login", "/presentation"}
    ensures CanoniserAlias(req.params, now, textes).Some?
    ensures Middleware(req, jeton, cookie, now, textes) == Redirige(req.chemin, CanoniserAlias(req.params, now, textes).value)
  {
  }

  lemma SettlesNow(req: Requete, jeton: Jeton, cookie: Option<string>, nows: seq<int>, textes: Textes)
    requires nows != [] && !Middleware(req, jeton, cookie, nows[0], textes).Redirige?
    ensures !Aboutit(req, jeton, cookie, nows, textes).Redirige?
  {
  }

  lemma PageSettlesInOne(req: Requete, jeton: Jeton, cookie: Option<string>, nows: seq<int>, textes: Textes)
    requires |nows| > 1 && EstPageDeConsole(req) && Get(req.params, "range") == None
    ensures !Aboutit(req, jeton, cookie, nows, textes).Redirige?
  {
    var r := Middleware(req, jeton, cookie, nows[0], textes);
    if r.Redirige? {
      GateRedirectsOnce(req, jeton, cookie, nows[0], nows[1], textes);
      SettlesNow(Suivre(req, r), jeton, cookie, nows[1..], textes);
    }
  }

  /** From any request, with a fixed session and cookie, two redirects are enough to settle. */
  lemma TwoRedirectsSettle(req: Requete, jeton: Jeton, cookie: Option<string>, nows: seq<int>, textes: Textes)
    requires |nows| > 2
    ensures !Aboutit(req, jeton, cookie, nows, textes).Redirige?
  {
    var r := Middleware(req, jeton, cookie, nows[0], textes);
    if !r.Redirige? {
      SettlesNow(req, jeton, cookie, nows, textes);
    } else if EstPageDeConsole(req) && Get(req.params, "range") == None {
      PageSettlesInOne(req, jeton, cookie, nows, textes);
    } else {
      FirstRedirect(req, jeton, cookie, nows[0], nows[1], textes);
      var suite := Suivre(req, r);
      if Middleware(suite, jeton, cookie, nows[1], textes).Redirige? {
        PageSettlesInOne(suite, jeton, cookie, nows[1..], textes);
      } else {
        SettlesNow(suite, jeton, cookie, nows[1..], textes);
      }
    }
  }

  /** A page with the alias is rewritten first, then answered by the gate: two redirects when the gate makes one. */
  lemma RewrittenThenGated(req: Requete, jeton: Jeton, cookie: Option<string>, now: int, later: int, textes: Textes, user: SessionUser)
    requires EstPageDeConsole(req) && !Exclu(req.chemin) && !Contourne(req.chemin)
    requires Resolu(req, jeton) == Principal(Some(user)) && Get(req.params, "range") != None
    ensures var first := Middleware(req, jeton, cookie, now, textes);
            && first.Redirige? && first.chemin == req.chemin
            && Get(first.params, "app") == Get(req.params, "app")
            && Middleware(Suivre(req, first), jeton, cookie, later, textes) == Porte(req.chemin, first.params, cookie, user.apps)
  {
    AliasIsRewrittenOnce(req.params, now, textes, later);
  }

  /** Two are needed: the home page with the alias and no project named is rewritten, then given its project. */
  lemma TwoRedirectsHappen(req: Requete, jeton: Jeton, now: int, textes: Textes, user: SessionUser)
    requires req == Requete("GET", "/", [("range", "7d")])
    requires jeton == Hs256(Some(user)) && user == SessionUser(Some({"a"}), false)
    ensures var first := Middleware(req, jeton, None, now, textes);
            && first.Redirige?
            && Middleware(Suivre(req, first), jeton, None, now, textes).Redirige?
  {
    assert Get(req.params, "app") == None;
    RewrittenThenGated(req, jeton, None, now, now, textes, user);
    OnlyElement({"a"}, "a");
    assert Projet(None, None, user.apps) == Some("a");
  }

  // ------------------------------------------------------------------ what a gated pass means

  /**
   A console page that passes names a project, inside the scope when the session has one, and leaves the
   cookie equal to it.
   */
  lemma GatedPassIsScoped(req: Requete, jeton: Jeton, cookie: Option<string>, now: int, textes: Textes)
    requires EstPageDeConsole(req) && !Exclu(req.chemin) && !Contourne(req.chemin)
    requires Middleware(req, jeton, cookie, now, textes).Passe?
    ensures var projet := Middleware(req, jeton, cookie, now, textes).projet;
            var app := Get(req.params, "app");
            && Resolu(req, jeton).Principal? && Resolu(req, jeton).user.Some?
            && Present(app) && DansPerimetre(app.value, Resolu(req, jeton).user.value.apps)
            && (if projet.Some? then projet else cookie) == app
  {
  }

  /** A session whose scope is empty never sees a page, and an app outside its scope is refused by name. */
  lemma OutOfScopeIsRefused(req: Requete, jeton: Jeton, cookie: Option<string>, now: int, textes: Textes, user: SessionUser)
    requires EstPageDeConsole(req) && !Exclu(req.chemin) && !Contourne(req.chemin)
    requires Resolu(req, jeton) == Principal(Some(user)) && Get(req.params, "range") == None
    requires user.apps.Some? && Present(Get(req.params, "app")) && Get(req.params, "app").value !in user.apps.value
    ensures var r := Middleware(req, jeton, cookie, now, textes);
            var app := Get(req.params, "app").value;
            if user.apps.value == {} then r == Redirige("/select", [])
            else if app != "all" then r == Redirige("/select", [("hors_perimetre", app)])
            else !r.Passe? && r.Redirige? && (r.chemin == req.chemin ==> Get(r.params, "app") != Some("all"))
  {
    if user.apps.value != {} && |user.apps.value| == 1 { assert Pick(user.apps.value) in user.apps.value; }
  }

  /** The placeholder scope of an ES256 session is never looked at: a page reads the service's answer instead. */
  lemma PlaceholderNeverReachesTheGate(req: Requete, local: bool, moi: Moi, other: Moi, cookie: Option<string>, now: int, textes: Textes)
    ensures EstPageDeConsole(req) ==> Resolu(req, Es256(Some(local), moi)) == moi
    ensures !EstPageDeConsole(req) && !Contourne(req.chemin) ==>
              forall apps: Option<set<string>> ::
                Middleware(req, Es256(Some(local), moi), cookie, now, textes)
                == Middleware(req, Hs256(Some(SessionUser(apps, local))), cookie, now, textes)
    ensures !EstPageDeConsole(req) ==>
              Middleware(req, Es256(Some(local), moi), cookie, now, textes)
              == Middleware(req, Es256(Some(local), other), cookie, now, textes)
  {
  }
}
