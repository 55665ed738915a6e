/**
 The `like` pattern that finds the attestations of one application in a journal of free text: its detail
 is a JSON object whose first key is `app`. Strings are UTF-16 code units, as in JavaScript.
 */
module LikePattern {
  import opened Basics

  type Unite = u: int | 0 <= u < 0x1_0000

  type Texte = seq<Unite>

  const GUILLEMET: Unite := 0x22
  const ANTISLASH: Unite := 0x5C
  const POURCENT: Unite := 0x25
  const SOULIGNE: Unite := 0x5F
  const VIRGULE: Unite := 0x2C

  /** `{"app":` */
  const ENTETE: Texte := [0x7B, 0x22, 0x61, 0x70, 0x70, 0x22, 0x3A]

  // ------------------------------------------------------------------ JSON strings (section 7 of RFC 8259)

  predicate Haut(u: Unite) {
    0xD800 <= u < 0xDC00
  }

  predicate Bas(u: Unite) {
    0xDC00 <= u < 0xE000
  }

  function Chiffre(d: int): (u: Unite)
    requires 0 <= d < 16
    ensures Valeur(u) == Some(d)
  {
    if d < 10 then 0x30 + d else 0x61 + (d - 10)
  }

  /** The value of a hexadecimal digit, of either case. */
  function Valeur(u: Unite): (r: Option<int>)
    ensures r.Some? ==> 0 <= r.value < 16
  {
    if 0x30 <= u <= 0x39 then Some(u - 0x30)
    else if 0x61 <= u <= 0x66 then Some(u - 0x61 + 10)
    else if 0x41 <= u <= 0x46 then Some(u - 0x41 + 10)
    else None
  }

  /** The letter of a short escape and the unit it stands for. */
  function Court(u: Unite): Option<Unite> {
    if u == 0x08 then Some(0x62)
    else if u == 0x09 then Some(0x74)
    else if u == 0x0A then Some(0x6E)
    else if u == 0x0C then Some(0x66)
    else if u == 0x0D then Some(0x72)
    else if u == GUILLEMET || u == ANTISLASH then Some(u)
    else None
  }

  function DeCourt(lettre: Unite): Option<Unite> {
    if lettre == 0x62 then Some(0x08)
    else if lettre == 0x74 then Some(0x09)
    else if lettre == 0x6E then Some(0x0A)
    else if lettre == 0x66 then Some(0x0C)
    else if lettre == 0x72 then Some(0x0D)
    else if lettre == GUILLEMET || lettre == ANTISLASH || lettre == 0x2F then Some(lettre)
    else None
  }

  /** One unit that is not part of a surrogate pair. */
  function Echappe(u: Unite): Texte {
    if Court(u).Some? then [ANTISLASH, Court(u).value]
    else if u < 0x20 || Haut(u) || Bas(u) then
      [ANTISLASH, 0x75, Chiffre(u / 0x1000), Chiffre(u / 0x100 % 16), Chiffre(u / 16 % 16), Chiffre(u % 16)]
    else [u]
  }

  /** The inside of a JSON string as `JSON.stringify` writes it: pairs raw, lone surrogates escaped. */
  function Corps(s: Texte): Texte {
    if s == [] then []
    else if |s| > 1 && Haut(s[0]) && Bas(s[1]) then [s[0], s[1]] + Corps(s[2..])
    else Echappe(s[0]) + Corps(s[1..])
  }

  function Json(s: Texte): Texte {
    [GUILLEMET] + Corps(s) + [GUILLEMET]
  }

  /** What a reader gets from a string once its opening quote is read: its units, and what follows the closing quote. */
  function Lire(t: Texte): Option<(Texte, Texte)>
    decreases |t|
  {
    if t == [] then None
    else if t[0] == GUILLEMET then Some(([], t[1..]))
    else if t[0] == ANTISLASH then
      if |t| < 2 then None
      else if t[1] == 0x75 then
        if |t| < 6 || !(forall i :: 2 <= i < 6 ==> Valeur(t[i]).Some?) then None
        else
          Devant(((Valeur(t[2]).value * 16 + Valeur(t[3]).value) * 16 + Valeur(t[4]).value) * 16 + Valeur(t[5]).value, Lire(t[6..]))
      else if DeCourt(t[1]).None? then None
      else Devant(DeCourt(t[1]).value, Lire(t[2..]))
    else if t[0] < 0x20 then None
    else Devant(t[0], Lire(t[1..]))
  }

  function Devant(u: Unite, r: Option<(Texte, Texte)>): Option<(Texte, Texte)> {
    if r.None? then None else Some(([u] + r.value.0, r.value.1))
  }

  lemma EchappeIsRead(u: Unite, t: Texte, lu: Texte, suite: Texte)
    requires Lire(t) == Some((lu, suite))
    ensures Lire(Echappe(u) + t) == Some(([u] + lu, suite))
  {
    var e := Echappe(u) + t;
    assert e[|Echappe(u)|..] == t;
    if |Echappe(u)| == 6 {
      assert e[0] == ANTISLASH && e[1] == 0x75;
      assert Valeur(e[2]) == Some(u / 0x1000) && Valeur(e[3]) == Some(u / 0x100 % 16);
      assert Valeur(e[4]) == Some(u / 16 % 16) && Valeur(e[5]) == Some(u % 16);
      FourDigits(u);
    }
  }

  lemma FourDigits(u: int)
    requires 0 <= u < 0x1_0000
    ensures ((u / 0x1000 * 16 + u / 0x100 % 16) * 16 + u / 16 % 16) * 16 + u % 16 == u
  {
    assert u / 0x100 == u / 16 / 16 && u / 0x1000 == u / 0x100 / 16;
  }

  lemma PaireIsRead(u: Unite, v: Unite, t: Texte, lu: Texte, suite: Texte)
    requires Haut(u) && Bas(v) && Lire(t) == Some((lu, suite))
    ensures Lire([u, v] + t) == Some(([u] + ([v] + lu), suite))
  {
    var p := [u, v] + t;
    assert p[1..][1..] == t && p[1..][0] == v;
  }

  lemma Rejoin(tete: Texte, corps: Texte, fin: Texte)
    ensures (tete + corps) + fin == tete + (corps + fin)
  {
  }

  lemma CorpsOfPaire(s: Texte, fin: Texte)
    requires |s| > 1 && Haut(s[0]) && Bas(s[1])
    ensures Corps(s) + fin == [s[0], s[1]] + (Corps(s[2..]) + fin)
  {
    var corps := Corps(s[2..]);
    assert Corps(s) == [s[0], s[1]] + corps;
    Rejoin([s[0], s[1]], corps, fin);
  }

  lemma CorpsOfOne(s: Texte, fin: Texte)
    requires s != [] && !(|s| > 1 && Haut(s[0]) && Bas(s[1]))
    ensures Corps(s) + fin == Echappe(s[0]) + (Corps(s[1..]) + fin)
  {
    var corps := Corps(s[1..]);
    assert Corps(s) == Echappe(s[0]) + corps;
    Rejoin(Echappe(s[0]), corps, fin);
  }

  lemma CorpsOfNone(fin: Texte)
    requires fin != [] && fin[0] == GUILLEMET
    ensures Lire(Corps([]) + fin) == Some(([], fin[1..]))
  {
    assert Corps([]) + fin == fin;
  }

  /** Reading a string that was written gives it back, and leaves what follows it: for any text, lone surrogates included. */
  lemma {:induction false} JsonRoundTrip(s: Texte, fin: Texte)
    requires fin != [] && fin[0] == GUILLEMET
    ensures Lire(Corps(s) + fin) == Some((s, fin[1..]))
    decreases |s|
  {
    if s == [] {
      CorpsOfNone(fin);
    } else if |s| > 1 && Haut(s[0]) && Bas(s[1]) {
      JsonRoundTrip(s[2..], fin);
      OnePair(s, fin, Corps(s[2..]) + fin);
    } else {
      JsonRoundTrip(s[1..], fin);
      OneUnit(s, fin, Corps(s[1..]) + fin);
    }
  }

  lemma OnePair(s: Texte, fin: Texte, t: Texte)
    requires fin != [] && |s| > 1 && Haut(s[0]) && Bas(s[1])
    requires t == Corps(s[2..]) + fin && Lire(t) == Some((s[2..], fin[1..]))
    ensures Lire(Corps(s) + fin) == Some((s, fin[1..]))
  {
    PaireIsRead(s[0], s[1], t, s[2..], fin[1..]);
    CorpsOfPaire(s, fin);
    assert [s[0]] + ([s[1]] + s[2..]) == s;
  }

  lemma OneUnit(s: Texte, fin: Texte, t: Texte)
    requires fin != [] && s != [] && !(|s| > 1 && Haut(s[0]) && Bas(s[1]))
    requires t == Corps(s[1..]) + fin && Lire(t) == Some((s[1..], fin[1..]))
    ensures Lire(Corps(s) + fin) == Some((s, fin[1..]))
  {
    EchappeIsRead(s[0], t, s[1..], fin[1..]);
    CorpsOfOne(s, fin);
    assert [s[0]] + s[1..] == s;
  }

  // ------------------------------------------------------------------ LIKE, with a backslash escape

  /** `%` any text, `_` one unit, a backslash before the unit it makes ordinary. */
  ghost predicate Like(s: Texte, motif: Texte)
    decreases |motif|
  {
    if motif == [] then s == []
    else if motif[0] == POURCENT then exists k :: 0 <= k <= |s| && Like(s[k..], motif[1..])
    else if motif[0] == SOULIGNE then s != [] && Like(s[1..], motif[1..])
    else if motif[0] == ANTISLASH then |motif| > 1 && s != [] && s[0] == motif[1] && Like(s[1..], motif[2..])
    else s != [] && s[0] == motif[0] && Like(s[1..], motif[1..])
  }

  /** An underscore stands for one unit, a percent sign for any number of them, before whatever follows. */
  lemma WildcardsStandFor(s: Texte, reste: Texte)
    ensures Like(s, [SOULIGNE] + reste) <==> s != [] && Like(s[1..], reste)
    ensures Like(s, [POURCENT] + reste) <==> exists k :: 0 <= k <= |s| && Like(s[k..], reste)
    ensures Like(s, []) <==> s == []
    ensures Like(s, [POURCENT]) && SOULIGNE == 0x5F && POURCENT == 0x25
  {
    assert ([SOULIGNE] + reste)[1..] == reste && ([POURCENT] + reste)[1..] == reste;
    assert [POURCENT][1..] == [] && s[|s|..] == [];
    assert Like(s[|s|..], []);
  }

  predicate Special(u: Unite) {
    u == ANTISLASH || u == POURCENT || u == SOULIGNE
  }

  /** `.replace(/[\\%_]/g, (c) => `\\${c}`)` */
  function Litteral(s: Texte): Texte {
    if s == [] then []
    else if Special(s[0]) then [ANTISLASH, s[0]] + Litteral(s[1..])
    else [s[0]] + Litteral(s[1..])
  }

  /** `motifAttestation` */
  function Motif(app: Texte): Texte {
    Litteral(ENTETE + Json(app)) + [VIRGULE, POURCENT]
  }

  /** What the detail of an attestation of `app` begins with. */
  function Debut(app: Texte): Texte {
    ENTETE + Json(app) + [VIRGULE]
  }

  /** The entry of an application: an object whose first key is `app`, its name as a JSON string, and a comma. */
  lemma DebutIs(app: Texte)
    ensures Debut(app) == [0x7B, 0x22, 'a' as int, 'p' as int, 'p' as int, 0x22, 0x3A] + ([0x22] + Corps(app) + [0x22]) + [0x2C]
  {
  }

  /** An escaped text matches itself and nothing else; the rest of the pattern applies to what follows. */
  lemma {:induction false} LitteralMatchesItself(s: Texte, litteral: Texte, suite: Texte)
    ensures Like(s, Litteral(litteral) + suite) <==> litteral <= s && Like(s[|litteral|..], suite)
  {
    if litteral == [] {
      assert Litteral(litteral) + suite == suite && s[0..] == s;
    } else {
      var c, reste := litteral[0], litteral[1..];
      UnitIsMatched(s, c, Litteral(reste) + suite, Litteral(litteral) + suite);
      if s != [] {
        LitteralMatchesItself(s[1..], reste, suite);
        PrefixStep(s, litteral);
      }
    }
  }

  lemma PrefixStep(s: Texte, debut: Texte)
    requires s != [] && debut != []
    ensures debut <= s <==> s[0] == debut[0] && debut[1..] <= s[1..]
    ensures debut <= s ==> s[1..][|debut[1..]|..] == s[|debut|..]
  {
    assert debut == [debut[0]] + debut[1..] && s == [s[0]] + s[1..];
  }

  /** An escaped unit matches that unit. */
  lemma UnitIsMatched(s: Texte, c: Unite, apres: Texte, motif: Texte)
    requires motif == (if Special(c) then [ANTISLASH, c] else [c]) + apres
    ensures Like(s, motif) <==> s != [] && s[0] == c && Like(s[1..], apres)
  {
    assert Special(c) ==> motif[2..] == apres;
    assert !Special(c) ==> motif[1..] == apres;
  }

  /** The pattern of an application matches exactly the details that begin with its entry. */
  lemma MotifIsExact(detail: Texte, app: Texte)
    ensures Like(detail, Motif(app)) <==> Debut(app) <= detail
  {
    var litteral := ENTETE + Json(app);
    LitteralMatchesItself(detail, litteral, [VIRGULE, POURCENT]);
    if litteral <= detail {
      var reste := detail[|litteral|..];
      assert [VIRGULE, POURCENT][1..] == [POURCENT] && [POURCENT][1..] == [];
      if reste != [] {
        assert reste[1..][|reste[1..]|..] == [];
        assert Like(reste[1..][|reste[1..]|..], []);
      }
      assert detail == litteral + reste;
    }
  }

  /** The application can be read back from a detail that begins with its entry. */
  lemma DebutIsRead(detail: Texte, app: Texte)
    requires Debut(app) <= detail
    ensures Lire(detail[|ENTETE| + 1..]) == Some((app, detail[|Debut(app)| - 1..]))
  {
    var suite := detail[|Debut(app)| - 1..];
    assert ([GUILLEMET] + suite)[1..] == suite;
    JsonRoundTrip(app, [GUILLEMET] + suite);
    assert Debut(app)[|ENTETE| + 1..] == Corps(app) + [GUILLEMET] + [VIRGULE];
    assert detail[|ENTETE| + 1..] == Corps(app) + ([GUILLEMET] + suite);
  }

  /** Two applications whose entries begin the same detail are the same. */
  lemma DebutDecides(detail: Texte, app: Texte, autre: Texte)
    requires Debut(app) <= detail && Debut(autre) <= detail
    ensures app == autre
  {
    DebutIsRead(detail, app);
    DebutIsRead(detail, autre);
  }

  /** The detail of an attestation is found by the pattern of its own application only. */
  lemma PatternsAreDisjoint(detail: Texte, app: Texte, autre: Texte)
    requires Like(detail, Motif(app))
    ensures Like(detail, Motif(autre)) <==> autre == app
  {
    MotifIsExact(detail, app);
    MotifIsExact(detail, autre);
    if Like(detail, Motif(autre)) { DebutDecides(detail, app, autre); }
  }

  /** Every detail the command writes for `app`, whatever follows its first key, is found by it. */
  lemma WrittenIsFound(app: Texte, suite: Texte)
    ensures Like(Debut(app) + suite, Motif(app))
  {
    MotifIsExact(Debut(app) + suite, app);
  }
}
