/**
 What a list of conditions lets through, and when one list implies another. Values are free texts, so
 a list that holds no clashing pair is satisfied, and implies no equality but those it holds.
 */
module Conditions {
  import opened Basics
  import opened QueryContract

  /** The value of a dimension, for a row of a given device. */
  function DimensionIn(device: Option<string>, dims: map<string, string>, dimension: string): Option<string> {
    if dimension == "device" then device
    else if dimension in dims then Some(dims[dimension]) else None
  }

  predicate AllPass(conditions: seq<Condition>, device: Option<string>, dims: map<string, string>) {
    forall c :: c in conditions ==> Passes(c, DimensionIn(device, dims, c.dimension))
  }

  /** The parameter of a dimension, as a condition if it is given. */
  function Given(f: Filters, d: string): seq<Condition> {
    if d in f.params then [Eq(d, f.params[d])] else []
  }

  /** The device first, then the seven parameters in their order, then the segment as it was written. */
  lemma ConditionsInOrder(f: Filters, names: seq<string>)
    requires names == PARAM_DIMENSIONS
    ensures |names| == 7 && names[0] == "browser" && names[1] == "os" && names[2] == "env" && names[3] == "service"
    ensures |names| == 7 && names[4] == "release" && names[5] == "route" && names[6] == "country"
    ensures ConditionsOf(f) == (if f.device.Some? then [Eq("device", f.device.value)] else [])
              + (Given(f, names[0]) + (Given(f, names[1]) + (Given(f, names[2]) + (Given(f, names[3])
                 + (Given(f, names[4]) + (Given(f, names[5]) + Given(f, names[6])))))))
              + f.segments
  {
    GivenInOrder(f, names);
  }

  lemma GivenInOrder(f: Filters, names: seq<string>)
    requires |names| == 7
    ensures ParamConditions(f.params, names)
         == Given(f, names[0]) + (Given(f, names[1]) + (Given(f, names[2]) + (Given(f, names[3])
            + (Given(f, names[4]) + (Given(f, names[5]) + Given(f, names[6]))))))
  {
    Three(f, names, 0);
    Three(f, names, 3);
    Prefixed(f, names, 6);
    assert names[7..] == [] && names[0..] == names;
    assert Given(f, names[6]) + [] == Given(f, names[6]);
  }

  lemma Three(f: Filters, names: seq<string>, n: nat)
    requires n + 2 < |names|
    ensures ParamConditions(f.params, names[n..])
         == Given(f, names[n]) + (Given(f, names[n + 1]) + (Given(f, names[n + 2]) + ParamConditions(f.params, names[n + 3..])))
  {
    Prefixed(f, names, n);
    Prefixed(f, names, n + 1);
    Prefixed(f, names, n + 2);
  }

  lemma Prefixed(f: Filters, names: seq<string>, n: nat)
    requires n < |names|
    ensures ParamConditions(f.params, names[n..]) == Given(f, names[n]) + ParamConditions(f.params, names[n + 1..])
  {
    assert names[n..][0] == names[n] && names[n..][1..] == names[n + 1..];
  }

  // ------------------------------------------------------------------ contradictory lists

  /** No value meets both. */
  predicate Clash(c: Condition, d: Condition) {
    && c.dimension == d.dimension
    && match (c, d)
       case (Eq(_, v), Eq(_, w)) => v != w
       case (Eq(_, v), Neq(_, w)) => v == w
       case (Eq(_, _), IsNull(_)) => true
       case (Neq(_, _), IsNull(_)) => true
       case (_, _) => false
  }

  predicate Contradictory(cs: seq<Condition>) {
    exists i, j :: 0 <= i < |cs| && 0 <= j < |cs| && Clash(cs[i], cs[j])
  }

  lemma ClashIn(cs: seq<Condition>, c: Condition, d: Condition)
    requires c in cs && d in cs && Clash(c, d)
    ensures Contradictory(cs)
  {
    var i :| 0 <= i < |cs| && cs[i] == c;
    var j :| 0 <= j < |cs| && cs[j] == d;
    assert Clash(cs[i], cs[j]);
  }

  lemma ContradictoryPassesNone(cs: seq<Condition>, device: Option<string>, dims: map<string, string>)
    requires Contradictory(cs)
    ensures !AllPass(cs, device, dims)
  {
    var i, j :| 0 <= i < |cs| && 0 <= j < |cs| && Clash(cs[i], cs[j]);
    var v := DimensionIn(device, dims, cs[i].dimension);
    assert !(Passes(cs[i], v) && Passes(cs[j], v));
    assert cs[i] in cs && cs[j] in cs;
  }

  // ------------------------------------------------------------------ a row that passes

  /** A text longer than every value of the list. */
  function Longer(cs: seq<Condition>): (s: string)
    ensures |s| > 0 && forall c :: c in cs && !c.IsNull? ==> |c.value| < |s|
  {
    if cs == [] then "x"
    else
      assert forall c :: c in cs <==> c == cs[0] || c in cs[1..];
      (if cs[0].IsNull? then "" else cs[0].value) + Longer(cs[1..])
  }

  function FindEq(cs: seq<Condition>, d: string): (r: Option<string>)
    ensures r.Some? ==> Eq(d, r.value) in cs
    ensures r.None? ==> forall c :: c in cs && c.dimension == d ==> !c.Eq?
  {
    if cs == [] then None
    else
      assert forall c :: c in cs <==> c == cs[0] || c in cs[1..];
      if cs[0].Eq? && cs[0].dimension == d then Some(cs[0].value) else FindEq(cs[1..], d)
  }

  /** A value the list allows: the one it names, none if it asks for none, else a text it does not mention. */
  function Solve(cs: seq<Condition>, d: string): Option<string> {
    if FindEq(cs, d).Some? then FindEq(cs, d)
    else if IsNull(d) in cs then None
    else Some(Longer(cs))
  }

  function Solution(cs: seq<Condition>): map<string, string> {
    map c | c in cs && Solve(cs, c.dimension).Some? :: c.dimension := Solve(cs, c.dimension).value
  }

  lemma SolvePasses(cs: seq<Condition>, c: Condition)
    requires !Contradictory(cs) && c in cs
    ensures Passes(c, Solve(cs, c.dimension))
  {
    var found := FindEq(cs, c.dimension);
    if found.Some? {
      var e := Eq(c.dimension, found.value);
      if !Passes(c, found) { ClashIn(cs, e, c); }
    } else if IsNull(c.dimension) in cs {
      if c.Neq? { ClashIn(cs, c, IsNull(c.dimension)); }
    }
  }

  lemma SolutionIs(cs: seq<Condition>, d: string)
    requires exists c :: c in cs && c.dimension == d
    ensures DimensionIn(Solve(cs, "device"), Solution(cs), d) == Solve(cs, d)
  {
  }

  /** A list without a clashing pair lets some row through. */
  lemma Satisfied(cs: seq<Condition>)
    requires !Contradictory(cs)
    ensures AllPass(cs, Solve(cs, "device"), Solution(cs))
  {
    forall c | c in cs ensures Passes(c, DimensionIn(Solve(cs, "device"), Solution(cs), c.dimension)) {
      SolvePasses(cs, c);
      SolutionIs(cs, c.dimension);
    }
  }

  lemma StillConsistent(cs: seq<Condition>, n: Condition)
    requires !Contradictory(cs) && forall c :: c in cs + [n] ==> !Clash(c, n) && !Clash(n, c)
    ensures !Contradictory(cs + [n])
  {
    var all := cs + [n];
    forall i, j | 0 <= i < |all| && 0 <= j < |all| ensures !Clash(all[i], all[j]) {
      assert all[i] in all && all[j] in all;
      assert i < |cs| && j < |cs| ==> !Clash(cs[i], cs[j]);
    }
  }

  /** An equality the list does not hold is failed by a row the list lets through. */
  lemma Escapes(cs: seq<Condition>, d: string, v: string) returns (device: Option<string>, dims: map<string, string>)
    requires !Contradictory(cs) && Eq(d, v) !in cs
    ensures AllPass(cs, device, dims) && !Passes(Eq(d, v), DimensionIn(device, dims, d))
  {
    var stricter := if IsNull(d) in cs then cs else cs + [Neq(d, v)];
    if IsNull(d) !in cs { StillConsistent(cs, Neq(d, v)); }
    device, dims := Solve(stricter, "device"), Solution(stricter);
    Satisfied(stricter);
    if IsNull(d) in cs {
      assert !Passes(Eq(d, v), DimensionIn(device, dims, d));
    } else {
      assert Neq(d, v) in stricter;
    }
  }

  // ------------------------------------------------------------------ implication

  predicate Equalities(cs: seq<Condition>) {
    forall c :: c in cs ==> c.Eq?
  }

  ghost predicate Implies(cs: seq<Condition>, ds: seq<Condition>) {
    forall device, dims :: AllPass(cs, device, dims) ==> AllPass(ds, device, dims)
  }

  /** What a caller can look up: the list clashes, or holds all the equalities. */
  predicate Holds(cs: seq<Condition>, ds: seq<Condition>) {
    Contradictory(cs) || forall c :: c in ds ==> c in cs
  }

  lemma HoldsPasses(cs: seq<Condition>, ds: seq<Condition>, device: Option<string>, dims: map<string, string>)
    requires Holds(cs, ds) && AllPass(cs, device, dims)
    ensures AllPass(ds, device, dims)
  {
    if Contradictory(cs) { ContradictoryPassesNone(cs, device, dims); }
  }

  /** A list implies equalities if and only if it clashes or holds them. */
  lemma ImpliesExactly(cs: seq<Condition>, ds: seq<Condition>)
    requires Equalities(ds)
    ensures Implies(cs, ds) <==> Holds(cs, ds)
  {
    if Holds(cs, ds) {
      forall device, dims | AllPass(cs, device, dims) ensures AllPass(ds, device, dims) {
        HoldsPasses(cs, ds, device, dims);
      }
    } else {
      var c :| c in ds && c !in cs;
      var device, dims := Escapes(cs, c.dimension, c.value);
      assert !AllPass(ds, device, dims);
    }
  }

  // ------------------------------------------------------------------ the conditions of a query

  /** The segment clashes, or holds the device and every dedicated parameter as conditions of its own. */
  predicate Decided(f: Filters) {
    Holds(f.segments, Dedicated(f))
  }

  lemma {:induction false} ParamsAreEqualities(params: map<string, string>, names: seq<string>)
    ensures Equalities(ParamConditions(params, names))
    ensures forall c :: c in ParamConditions(params, names) ==> c.dimension in names && c.dimension in params
  {
    if names != [] { ParamsAreEqualities(params, names[1..]); }
  }

  lemma DedicatedAreEqualities(f: Filters)
    ensures Equalities(Dedicated(f))
  {
    ParamsAreEqualities(f.params, PARAM_DIMENSIONS);
  }

  lemma {:induction false} ParamConditionPresent(params: map<string, string>, names: seq<string>, d: string)
    requires d in names && d in params
    ensures Eq(d, params[d]) in ParamConditions(params, names)
  {
    if d != names[0] {
      ParamConditionPresent(params, names[1..], d);
    }
  }

  /** Under a segment of device conditions: no dedicated parameter, and no device but one the segment asks for. */
  lemma DecidedOnDevice(f: Filters)
    requires forall c :: c in f.segments ==> c.dimension == "device"
    ensures Decided(f) <==>
              || Contradictory(f.segments)
              || ((forall d :: d in PARAM_DIMENSIONS ==> d !in f.params)
                  && (f.device.Some? ==> Eq("device", f.device.value) in f.segments))
  {
    ParamsAreEqualities(f.params, PARAM_DIMENSIONS);
    if d :| d in PARAM_DIMENSIONS && d in f.params {
      ParamConditionPresent(f.params, PARAM_DIMENSIONS, d);
      assert Eq(d, f.params[d]) in Dedicated(f);
    }
  }

  ghost predicate SameAnswers(a: seq<Condition>, b: seq<Condition>) {
    forall device, dims :: AllPass(a, device, dims) <==> AllPass(b, device, dims)
  }

  /** Two populations with the same segment: each one's conditions have to hold the other's dedicated ones. */
  predicate SameConditions(f: Filters, g: Filters) {
    Holds(ConditionsOf(f), Dedicated(g)) && Holds(ConditionsOf(g), Dedicated(f))
  }

  lemma SegmentsAgree(f: Filters, g: Filters)
    requires multiset(f.segments) == multiset(g.segments)
    ensures forall c :: c in f.segments <==> c in g.segments
  {
    forall c ensures c in f.segments <==> c in g.segments {
      assert c in f.segments <==> c in multiset(f.segments);
      assert c in g.segments <==> c in multiset(g.segments);
    }
  }

  /** Filters with the same segment let the same rows through if and only if they hold each other's dedicated conditions. */
  lemma SameAnswersExactly(f: Filters, g: Filters)
    requires multiset(f.segments) == multiset(g.segments)
    ensures SameAnswers(ConditionsOf(f), ConditionsOf(g)) <==> SameConditions(f, g)
  {
    SegmentsAgree(f, g);
    DedicatedAreEqualities(f);
    DedicatedAreEqualities(g);
    ImpliesExactly(ConditionsOf(f), Dedicated(g));
    ImpliesExactly(ConditionsOf(g), Dedicated(f));
    forall device, dims
      ensures AllPass(ConditionsOf(g), device, dims) <==> AllPass(f.segments, device, dims) && AllPass(Dedicated(g), device, dims)
      ensures AllPass(ConditionsOf(f), device, dims) <==> AllPass(f.segments, device, dims) && AllPass(Dedicated(f), device, dims)
    {
    }
  }
}
