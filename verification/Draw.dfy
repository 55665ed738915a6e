/**
 The stable draw of a session (`seauDe`): the first four bytes of a digest, put together by the 32-bit
 shifts and ors of JavaScript (signed words, then `>>> 0`), taken modulo one hundred.
 */
module Draw {
  import opened Basics
  import opened Breaker

  const MOTS := 0x1_0000_0000

  function Pow2(n: nat): (r: nat)
    ensures r >= 1
  {
    if n == 0 then 1 else 2 * Pow2(n - 1)
  }

  // ------------------------------------------------------------------ the 32-bit operators

  function ToUint32(x: int): nat {
    x % MOTS
  }

  function ToInt32(x: int): int {
    if ToUint32(x) >= MOTS / 2 then ToUint32(x) - MOTS else ToUint32(x)
  }

  /** `x << n`: the word moved left, read as a signed word. */
  function Shl(x: int, n: nat): int {
    ToInt32(ToUint32(x) * Pow2(n))
  }

  /** Bit by bit, from the lowest. */
  function OrBits(a: nat, b: nat): nat
    decreases a + b
  {
    if a + b == 0 then 0 else 2 * OrBits(a / 2, b / 2) + (if a % 2 == 1 || b % 2 == 1 then 1 else 0)
  }

  /** `x | y` on signed words. */
  function Or(x: int, y: int): int {
    ToInt32(OrBits(ToUint32(x), ToUint32(y)))
  }

  type Octet = x: int | 0 <= x < 256

  /** The first four bytes of a digest. */
  datatype Empreinte = Empreinte(h0: Octet, h1: Octet, h2: Octet, h3: Octet)

  /** `((h[0] << 24) | (h[1] << 16) | (h[2] << 8) | h[3]) >>> 0` */
  function Prefixe(e: Empreinte): nat {
    ToUint32(Or(Or(Or(Shl(e.h0, 24), Shl(e.h1, 16)), Shl(e.h2, 8)), e.h3))
  }

  function SeauDe(e: Empreinte): nat {
    Prefixe(e) % 100
  }

  // ------------------------------------------------------------------ what it computes

  /** The big-endian value of the four bytes. */
  function Valeur(e: Empreinte): (v: nat)
    ensures v < MOTS
  {
    ((e.h0 * 256 + e.h1) * 256 + e.h2) * 256 + e.h3
  }

  /** Words that share no bit are or-ed by adding them. */
  lemma {:induction false} OrOfDisjoint(a: nat, b: nat, k: nat)
    requires b < Pow2(k)
    ensures OrBits(a * Pow2(k), b) == a * Pow2(k) + b
    decreases k
  {
    if k == 0 {
      OrZero(a);
    } else {
      var half := a * Pow2(k - 1);
      assert a * Pow2(k) == 2 * half;
      OrOfDisjoint(a, b / 2, k - 1);
    }
  }

  lemma {:induction false} OrZero(a: nat)
    ensures OrBits(a, 0) == a
  {
    if a != 0 { OrZero(a / 2); }
  }

  lemma SignIsForgotten(x: int)
    ensures ToUint32(ToInt32(x)) == ToUint32(x)
  {
  }

  /** A word survives its signed representation. */
  lemma OrWord(x: int, y: int, v: nat)
    requires OrBits(ToUint32(x), ToUint32(y)) == v < MOTS
    ensures ToUint32(Or(x, y)) == v
  {
    SignIsForgotten(v);
  }

  /** The or of a high word and a lower one, through the signed representation. */
  lemma OrIsSum(x: int, y: int, high: nat, k: nat, a: nat, b: nat)
    requires ToUint32(x) == a == high * Pow2(k) && ToUint32(y) == b < Pow2(k) && a + b < MOTS
    ensures ToUint32(Or(x, y)) == a + b
  {
    OrOfDisjoint(high, b, k);
    OrWord(x, y, a + b);
  }

  lemma Powers()
    ensures Pow2(8) == 256 && Pow2(16) == 65536 && Pow2(24) == 16777216
  {
    assert Pow2(4) == 16;
    assert Pow2(8) == 256;
    assert Pow2(12) == 4096;
    assert Pow2(16) == 65536;
    assert Pow2(20) == 1048576;
    assert Pow2(24) == 16777216;
  }

  lemma ShiftIsProduct(h: Octet, n: nat)
    requires h * Pow2(n) < MOTS
    ensures ToUint32(Shl(h, n)) == h * Pow2(n)
  {
    SignIsForgotten(h * Pow2(n));
  }

  /** The signed shifts and ors give the big-endian value, even when the first byte sets the sign bit. */
  lemma PrefixeIsBigEndian(e: Empreinte)
    ensures Prefixe(e) == Valeur(e)
    ensures SeauDe(e) == Valeur(e) % 100 < 100
  {
    Powers();
    ShiftIsProduct(e.h0, 24);
    ShiftIsProduct(e.h1, 16);
    ShiftIsProduct(e.h2, 8);
    assert ToUint32(e.h3) == e.h3;
    OrOfBytes(Shl(e.h0, 24), Shl(e.h1, 16), Shl(e.h2, 8), e.h3, e);
  }

  lemma OrOfBytes(x0: int, x1: int, x2: int, x3: int, e: Empreinte)
    requires ToUint32(x0) == e.h0 * 16777216 && ToUint32(x1) == e.h1 * 65536
    requires ToUint32(x2) == e.h2 * 256 && ToUint32(x3) == e.h3
    ensures ToUint32(Or(Or(Or(x0, x1), x2), x3)) == Valeur(e)
  {
    Powers();
    var deux := e.h0 * 256 + e.h1;
    var trois := deux * 256 + e.h2;
    OrIsSum(x0, x1, e.h0, 24, e.h0 * 16777216, e.h1 * 65536);
    OrIsSum(Or(x0, x1), x2, deux, 16, deux * 65536, e.h2 * 256);
    OrIsSum(Or(Or(x0, x1), x2), x3, trois, 8, trois * 256, e.h3);
  }

  // ------------------------------------------------------------------ how the sessions are shared out

  function Octets(v: nat): Empreinte
    requires v < MOTS
  {
    Empreinte(v / 16777216, v / 65536 % 256, v / 256 % 256, v % 256)
  }

  lemma OctetsAreDigits(v: nat)
    requires v < MOTS
    ensures Valeur(Octets(v)) == v
  {
    assert v / 65536 == v / 256 / 256 && v / 16777216 == v / 65536 / 256;
    assert v == v / 256 * 256 + v % 256;
    assert v / 256 == v / 65536 * 256 + v / 256 % 256;
    assert v / 65536 == v / 16777216 * 256 + v / 65536 % 256;
  }

  lemma ValeurIsInjective(e: Empreinte)
    ensures Octets(Valeur(e)) == e
  {
    var v := Valeur(e);
    assert v / 256 == (e.h0 * 256 + e.h1) * 256 + e.h2;
    assert v / 65536 == e.h0 * 256 + e.h1;
    assert v / 16777216 == e.h0;
  }

  /** The prefixes of value below `n` whose bucket is under the percentage. */
  ghost function Servies(n: nat, pct: nat): set<Empreinte>
    requires n <= MOTS
  {
    if n == 0 then {}
    else if (n - 1) % 100 < pct then Servies(n - 1, pct) + {Octets(n - 1)}
    else Servies(n - 1, pct)
  }

  /** How many numbers below `n` have their last two digits under the percentage. */
  function Part(n: nat, pct: nat): nat {
    if n == 0 then 0 else Part(n - 1, pct) + (if (n - 1) % 100 < pct then 1 else 0)
  }

  /** Within a hundred, only the first `pct` count. */
  lemma {:induction false} PartWithin(base: nat, r: nat, pct: nat)
    requires base % 100 == 0 && r <= 100 && pct <= 100
    ensures Part(base + r, pct) == Part(base, pct) + Min(r, pct)
    decreases r
  {
    if r > 0 {
      PartWithin(base, r - 1, pct);
      LastTwoDigits(base, r - 1);
    }
  }

  lemma LastTwoDigits(base: nat, r: nat)
    requires base % 100 == 0 && r < 100
    ensures (base + r) % 100 == r
  {
  }

  lemma {:induction false} PartOfHundreds(q: nat, pct: nat)
    requires pct <= 100
    ensures Part(100 * q, pct) == q * pct
  {
    if q > 0 {
      PartOfHundreds(q - 1, pct);
      PartWithin(100 * (q - 1), 100, pct);
      OneMore(q, pct);
    }
  }

  lemma OneMore(q: nat, pct: nat)
    requires q > 0
    ensures q * pct == (q - 1) * pct + pct
  {
  }

  lemma PartOf(q: nat, r: nat, pct: nat)
    requires r <= 100 && pct <= 100
    ensures Part(100 * q + r, pct) == q * pct + Min(r, pct)
  {
    PartOfHundreds(q, pct);
    PartWithin(100 * q, r, pct);
  }

  lemma {:induction false} InServies(e: Empreinte, n: nat, pct: nat)
    requires n <= MOTS
    ensures e in Servies(n, pct) <==> Valeur(e) < n && Valeur(e) % 100 < pct
  {
    if n > 0 {
      InServies(e, n - 1, pct);
      OctetsAreDigits(n - 1);
      ValeurIsInjective(e);
    }
  }

  lemma {:induction false} CountServies(n: nat, pct: nat)
    requires n <= MOTS
    ensures |Servies(n, pct)| == Part(n, pct)
  {
    if n > 0 {
      CountServies(n - 1, pct);
      OctetsAreDigits(n - 1);
      InServies(Octets(n - 1), n - 1, pct);
    }
  }

  /** Of the 2^32 prefixes (`n` of them), exactly this many fall under a percentage. */
  lemma ShareOfPrefixes(n: nat, pct: nat)
    requires n == MOTS && pct <= 100
    ensures |Servies(n, pct)| == 42949672 * pct + Min(pct, 96)
    ensures forall e: Empreinte :: e in Servies(n, pct) <==> SeauDe(e) < pct
  {
    CountServies(n, pct);
    PartOf(42949672, 96, pct);
    assert n == 100 * 42949672 + 96;
    forall e: Empreinte ensures e in Servies(n, pct) <==> SeauDe(e) < pct {
      InServies(e, n, pct);
      PrefixeIsBigEndian(e);
    }
  }

  /**
   A session drawn at a percentage is served at every larger one: raising the percentage never sends
   one back, and at one hundred every session is served.
   */
  lemma RaisingKeepsServed(e: Empreinte, lower: real, higher: real)
    requires lower <= higher
    ensures Tirer(Some(lower), SeauDe(e)).Distante? ==> Tirer(Some(higher), SeauDe(e)).Distante?
    ensures higher >= 100.0 ==> Tirer(Some(higher), SeauDe(e)).Distante?
  {
    PrefixeIsBigEndian(e);
  }
}
