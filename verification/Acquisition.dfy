/**
 Where sessions come from: the channel of each entry, the counts by channel, referring host and entry
 route, and the series over a grid of buckets. A host is what `hostOf` reads of an address.
 */
module Acquisition {
  import opened Basics
  import opened Sorting

  datatype Channel = Direct | Search | Social | Referral | Internal

  const CHANNELS := [Direct, Search, Social, Referral, Internal]

  const SEARCH := ["google.", "bing.", "yahoo.", "duckduckgo.", "qwant.", "ecosia.", "yandex.", "baidu.", "startpage."]

  const SOCIAL := [
    "facebook.", "fb.", "instagram.", "twitter.", "x.com", "t.co", "linkedin.", "lnkd.in",
    "youtube.", "youtu.be", "reddit.", "pinterest.", "tiktok.", "mastodon."]

  predicate Includes(s: string, fragment: string) {
    fragment <= s || (s != "" && Includes(s[1..], fragment))
  }

  predicate Matches(host: string, fragments: seq<string>) {
    exists i :: 0 <= i < |fragments| && Includes(host, fragments[i])
  }

  /** The channel of a host that is not the site's own. */
  function ChannelOfHost(host: string): Channel {
    if Matches(host, SEARCH) then Search else if Matches(host, SOCIAL) then Social else Referral
  }

  /** The entry of a session: the hosts of its referrer and of its page, its route. */
  datatype Entree = Entree(ref: Option<string>, self: Option<string>, route: Option<string>)

  function ClassifyChannel(ref: Option<string>, self: Option<string>): Channel {
    if ref.None? then Direct else if self == ref then Internal else ChannelOfHost(ref.value)
  }

  function ChannelOf(e: Entree): Channel {
    ClassifyChannel(e.ref, e.self)
  }

  predicate External(c: Channel) {
    c == Search || c == Social || c == Referral
  }

  /** Among external entries, the host decides the channel. */
  lemma HostDecidesChannel(a: Entree, b: Entree)
    requires External(ChannelOf(a)) && External(ChannelOf(b)) && a.ref == b.ref
    ensures a.ref.Some? && ChannelOf(a) == ChannelOf(b) == ChannelOfHost(a.ref.value)
  {
  }

  /** The fragment stands somewhere in the host. */
  ghost predicate Holds(host: string, fragment: string) {
    exists k :: StandsAt(host, fragment, k)
  }

  predicate StandsAt(host: string, fragment: string, k: int) {
    0 <= k <= |host| && fragment <= host[k..]
  }

  lemma {:induction false} IncludesExactly(s: string, fragment: string)
    ensures Includes(s, fragment) <==> Holds(s, fragment)
  {
    if fragment <= s { assert StandsAt(s, fragment, 0); }
    if s != "" {
      IncludesExactly(s[1..], fragment);
      if k :| StandsAt(s[1..], fragment, k) { assert s[k + 1..] == s[1..][k..] && StandsAt(s, fragment, k + 1); }
      if k :| StandsAt(s, fragment, k) && k > 0 { assert s[k..] == s[1..][k - 1..] && StandsAt(s[1..], fragment, k - 1); }
    }
  }

  /**
   Without a referrer an entry is direct, from the site's own host internal; else it is of a search engine if its host
   holds one of their names, of a network if it holds one of theirs and of no engine, and referred otherwise.
   */
  lemma ChannelExactly(ref: Option<string>, self: Option<string>)
    ensures var c := ClassifyChannel(ref, self);
            && (c == Direct <==> ref.None?) && (c == Internal <==> ref.Some? && self == ref)
            && (External(c) <==> ref.Some? && self != ref)
            && (External(c) ==>
                 var engine, network := exists i :: 0 <= i < |SEARCH| && Holds(ref.value, SEARCH[i]), exists i :: 0 <= i < |SOCIAL| && Holds(ref.value, SOCIAL[i]);
                 && (c == Search <==> engine) && (c == Social <==> network && !engine) && (c == Referral <==> !network && !engine))
  {
    if ref.Some? {
      forall fragment ensures Includes(ref.value, fragment) <==> Holds(ref.value, fragment) { IncludesExactly(ref.value, fragment); }
    }
  }

  /** One count a channel. */
  datatype Canaux = Canaux(direct: nat, search: nat, social: nat, referral: nat, internal: nat) {
    function Of(c: Channel): nat {
      match c case Direct => direct case Search => search case Social => social case Referral => referral case Internal => internal
    }

    function Plus(c: Channel): Canaux {
      match c
      case Direct => this.(direct := direct + 1)
      case Search => this.(search := search + 1)
      case Social => this.(social := social + 1)
      case Referral => this.(referral := referral + 1)
      case Internal => this.(internal := internal + 1)
    }

    function Somme(): nat {
      direct + search + social + referral + internal
    }
  }

  const ZERO := Canaux(0, 0, 0, 0, 0)

  // ------------------------------------------------------------------ what is counted

  function ByChannel(entries: seq<Entree>, c: Channel): nat {
    if entries == [] then 0
    else ByChannel(entries[..|entries| - 1], c) + (if ChannelOf(entries[|entries| - 1]) == c then 1 else 0)
  }

  /** The external entries of a host. */
  function ByHost(entries: seq<Entree>, host: string): nat {
    if entries == [] then 0
    else
      var e := entries[|entries| - 1];
      ByHost(entries[..|entries| - 1], host) + (if External(ChannelOf(e)) && e.ref == Some(host) then 1 else 0)
  }

  predicate HasRoute(e: Entree, route: string) {
    e.route == Some(route) && route != ""
  }

  function ByRoute(entries: seq<Entree>, route: string, c: Channel): nat {
    if entries == [] then 0
    else
      var e := entries[|entries| - 1];
      ByRoute(entries[..|entries| - 1], route, c) + (if HasRoute(e, route) && ChannelOf(e) == c then 1 else 0)
  }

  /** The entries of a route, all channels together. */
  function OnRoute(entries: seq<Entree>, route: string): nat {
    if entries == [] then 0
    else OnRoute(entries[..|entries| - 1], route) + (if HasRoute(entries[|entries| - 1], route) then 1 else 0)
  }

  function Channels(entries: seq<Entree>): Canaux {
    Canaux(ByChannel(entries, Direct), ByChannel(entries, Search), ByChannel(entries, Social),
           ByChannel(entries, Referral), ByChannel(entries, Internal))
  }

  /** Every session is in one channel. */
  lemma {:induction false} ChannelsAddUp(entries: seq<Entree>)
    ensures Channels(entries).Somme() == |entries|
  {
    if entries != [] { ChannelsAddUp(entries[..|entries| - 1]); }
  }

  // ------------------------------------------------------------------ referring hosts and entry routes

  datatype Referrer = Referrer(host: string, channel: Channel, sessions: nat)

  datatype Ligne = Ligne(route: string, parCanal: Canaux)

  function HostAt(refs: seq<Referrer>, host: string): Option<nat> {
    LastWhere(refs, (r: Referrer) => r.host == host)
  }

  function RouteAt(lignes: seq<Ligne>, route: string): Option<nat> {
    LastWhere(lignes, (l: Ligne) => l.route == route)
  }

  /** The hosts of the external entries, each once, with all its sessions and its channel. */
  ghost predicate Referrers(refs: seq<Referrer>, entries: seq<Entree>) {
    && (forall i, j :: 0 <= i < j < |refs| ==> refs[i].host != refs[j].host)
    && (forall i :: 0 <= i < |refs| ==>
          refs[i].sessions == ByHost(entries, refs[i].host) && refs[i].channel == ChannelOfHost(refs[i].host))
    && (forall host: string :: ByHost(entries, host) > 0 <==> HostAt(refs, host).Some?)
  }

  /** The routes of the entries that have one, each once, with its sessions by channel. */
  ghost predicate Routes(lignes: seq<Ligne>, entries: seq<Entree>) {
    && (forall i, j :: 0 <= i < j < |lignes| ==> lignes[i].route != lignes[j].route)
    && (forall i, c :: 0 <= i < |lignes| ==> lignes[i].parCanal.Of(c) == ByRoute(entries, lignes[i].route, c))
    && (forall route: string :: OnRoute(entries, route) > 0 <==> RouteAt(lignes, route).Some?)
  }

  function Refer(refs: seq<Referrer>, e: Entree): seq<Referrer> {
    if External(ChannelOf(e)) then ReferHost(refs, e.ref.value, ChannelOf(e)) else refs
  }

  function ReferHost(refs: seq<Referrer>, host: string, c: Channel): seq<Referrer> {
    var at := HostAt(refs, host);
    if at.Some? then refs[at.value := refs[at.value].(sessions := refs[at.value].sessions + 1)]
    else refs + [Referrer(host, c, 1)]
  }

  function Enter(lignes: seq<Ligne>, e: Entree): seq<Ligne> {
    if e.route.GetOr("") == "" then lignes
    else
      var at := RouteAt(lignes, e.route.value);
      if at.Some? then lignes[at.value := lignes[at.value].(parCanal := lignes[at.value].parCanal.Plus(ChannelOf(e)))]
      else lignes + [Ligne(e.route.value, ZERO.Plus(ChannelOf(e)))]
  }

  lemma HostAtOf(refs: seq<Referrer>, host: string)
    ensures HostAt(refs, host).Some? <==> exists i :: 0 <= i < |refs| && refs[i].host == host
  {
  }

  lemma RouteAtOf(lignes: seq<Ligne>, route: string)
    ensures RouteAt(lignes, route).Some? <==> exists i :: 0 <= i < |lignes| && lignes[i].route == route
  {
  }

  lemma ReferKeeps(refs: seq<Referrer>, avant: seq<Entree>, e: Entree, entries: seq<Entree>)
    requires Referrers(refs, avant) && entries == avant + [e]
    ensures Referrers(Refer(refs, e), entries)
  {
    var r := Refer(refs, e);
    forall i | 0 <= i < |r| ensures r[i].sessions == ByHost(entries, r[i].host) && r[i].channel == ChannelOfHost(r[i].host) {
      ByHostNext(avant, e, entries, r[i].host);
    }
    forall h: string ensures ByHost(entries, h) > 0 <==> HostAt(r, h).Some? {
      ByHostNext(avant, e, entries, h);
      HostAtOf(refs, h);
      HostAtOf(r, h);
      HostsOfRefer(refs, e, r, h);
    }
  }

  lemma ByHostNext(avant: seq<Entree>, e: Entree, entries: seq<Entree>, h: string)
    requires entries == avant + [e]
    ensures ByHost(entries, h) == ByHost(avant, h) + (if External(ChannelOf(e)) && e.ref == Some(h) then 1 else 0)
  {
    assert entries[..|avant|] == avant;
  }

  lemma HostsOfRefer(refs: seq<Referrer>, e: Entree, r: seq<Referrer>, h: string)
    requires r == Refer(refs, e)
    ensures (exists i :: 0 <= i < |r| && r[i].host == h)
       <==> (exists i :: 0 <= i < |refs| && refs[i].host == h) || (External(ChannelOf(e)) && e.ref == Some(h))
  {
    if i :| 0 <= i < |refs| && refs[i].host == h {
      assert r[i].host == h;
    }
    if External(ChannelOf(e)) && e.ref == Some(h) {
      var at := HostAt(refs, h);
      var k := if at.Some? then at.value else |refs|;
      assert r[k].host == h;
    }
    if i :| 0 <= i < |r| && r[i].host == h {
      if i < |refs| { assert refs[i].host == h; }
    }
  }

  lemma EnterKeeps(lignes: seq<Ligne>, avant: seq<Entree>, e: Entree, entries: seq<Entree>)
    requires Routes(lignes, avant) && entries == avant + [e]
    ensures Routes(Enter(lignes, e), entries)
  {
    var r := Enter(lignes, e);
    assert entries[..|avant|] == avant;
    forall route: string ensures OnRoute(entries, route) > 0 <==> RouteAt(r, route).Some? {
      RouteAtOf(lignes, route);
      RouteAtOf(r, route);
      RoutesOfEnter(lignes, e, r, route);
    }
    forall i, c: Channel | 0 <= i < |r| ensures r[i].parCanal.Of(c) == ByRoute(entries, r[i].route, c) {
      assert i < |lignes| ==> lignes[i].parCanal.Of(c) == ByRoute(avant, lignes[i].route, c);
      if i == |lignes| { NoEntry(avant, r[i].route, c); }
    }
  }

  lemma {:induction false} NoEntry(entries: seq<Entree>, route: string, c: Channel)
    requires OnRoute(entries, route) == 0
    ensures ByRoute(entries, route, c) == 0
  {
    if entries != [] { NoEntry(entries[..|entries| - 1], route, c); }
  }

  lemma RoutesOfEnter(lignes: seq<Ligne>, e: Entree, r: seq<Ligne>, route: string)
    requires r == Enter(lignes, e)
    ensures (exists i :: 0 <= i < |r| && r[i].route == route)
       <==> (exists i :: 0 <= i < |lignes| && lignes[i].route == route) || HasRoute(e, route)
  {
    if i :| 0 <= i < |lignes| && lignes[i].route == route {
      assert r[i].route == route;
    }
    if HasRoute(e, route) {
      var at := RouteAt(lignes, route);
      var k := if at.Some? then at.value else |lignes|;
      assert r[k].route == route;
    }
    if i :| 0 <= i < |r| && r[i].route == route {
      if i < |lignes| { assert lignes[i].route == route; }
    }
  }

  /** A row of the crossed table adds up to the entries of its route. */
  lemma {:induction false} RowAddsUp(entries: seq<Entree>, route: string)
    ensures ByRoute(entries, route, Direct) + ByRoute(entries, route, Search) + ByRoute(entries, route, Social)
            + ByRoute(entries, route, Referral) + ByRoute(entries, route, Internal) == OnRoute(entries, route)
  {
    if entries != [] { RowAddsUp(entries[..|entries| - 1], route); }
  }

  /** The sessions of the referrers of a channel. */
  function OfChannel(refs: seq<Referrer>, c: Channel): nat {
    if refs == [] then 0 else (if refs[0].channel == c then refs[0].sessions else 0) + OfChannel(refs[1..], c)
  }

  lemma {:induction false} OfChannelUpdate(refs: seq<Referrer>, i: nat, x: Referrer, c: Channel)
    requires i < |refs| && x.channel == refs[i].channel && x.sessions == refs[i].sessions + 1
    ensures OfChannel(refs[i := x], c) == OfChannel(refs, c) + (if x.channel == c then 1 else 0)
  {
    if i > 0 {
      assert refs[i := x][1..] == refs[1..][i - 1 := x];
      OfChannelUpdate(refs[1..], i - 1, x, c);
    } else {
      assert refs[i := x][1..] == refs[1..];
    }
  }

  lemma {:induction false} OfChannelAppend(refs: seq<Referrer>, x: Referrer, c: Channel)
    ensures OfChannel(refs + [x], c) == OfChannel(refs, c) + (if x.channel == c then x.sessions else 0)
  {
    if refs == [] {
      assert refs + [x] == [x];
    } else {
      assert (refs + [x])[1..] == refs[1..] + [x];
      OfChannelAppend(refs[1..], x, c);
    }
  }

  /** The referrers a list of entries leaves. */
  function ReferAll(entries: seq<Entree>): seq<Referrer> {
    if entries == [] then [] else Refer(ReferAll(entries[..|entries| - 1]), entries[|entries| - 1])
  }

  function EnterAll(entries: seq<Entree>): seq<Ligne> {
    if entries == [] then [] else Enter(EnterAll(entries[..|entries| - 1]), entries[|entries| - 1])
  }

  lemma {:induction false} ReferAllOf(entries: seq<Entree>)
    ensures Referrers(ReferAll(entries), entries)
  {
    if entries != [] {
      var n := |entries| - 1;
      ReferAllOf(entries[..n]);
      ReferKeeps(ReferAll(entries[..n]), entries[..n], entries[n], entries);
    }
  }

  lemma {:induction false} EnterAllOf(entries: seq<Entree>)
    ensures Routes(EnterAll(entries), entries)
  {
    if entries != [] {
      var n := |entries| - 1;
      EnterAllOf(entries[..n]);
      EnterKeeps(EnterAll(entries[..n]), entries[..n], entries[n], entries);
    }
  }

  /** Before the cut, the referring hosts of an external channel hold all its sessions. */
  lemma {:induction false} ReferrersAddUp(entries: seq<Entree>, c: Channel)
    requires External(c)
    ensures OfChannel(ReferAll(entries), c) == ByChannel(entries, c)
  {
    if entries != [] {
      var n := |entries| - 1;
      ReferrersAddUp(entries[..n], c);
      ReferAllOf(entries[..n]);
      ReferCounts(ReferAll(entries[..n]), entries[n], ChannelOf(entries[n]), c);
    }
  }

  /** One entry adds one session to the referrers of its channel, if that channel is external. */
  lemma ReferCounts(refs: seq<Referrer>, e: Entree, k: Channel, c: Channel)
    requires External(c) && k == ChannelOf(e)
    requires forall i :: 0 <= i < |refs| ==> refs[i].channel == ChannelOfHost(refs[i].host)
    ensures OfChannel(Refer(refs, e), c) == OfChannel(refs, c) + (if k == c then 1 else 0)
  {
    if External(k) {
      HostDecidesChannel(e, e);
      ReferHostCounts(refs, e.ref.value, k, c);
    }
  }

  lemma ReferHostCounts(refs: seq<Referrer>, host: string, k: Channel, c: Channel)
    requires forall i :: 0 <= i < |refs| && refs[i].host == host ==> refs[i].channel == k
    ensures OfChannel(ReferHost(refs, host, k), c) == OfChannel(refs, c) + (if k == c then 1 else 0)
  {
    var at := HostAt(refs, host);
    if at.Some? {
      OfChannelUpdate(refs, at.value, refs[at.value].(sessions := refs[at.value].sessions + 1), c);
    } else {
      OfChannelAppend(refs, Referrer(host, k, 1), c);
    }
  }

  // ------------------------------------------------------------------ the report

  predicate StringLe(a: string, b: string) {
    a == "" || (b != "" && (a[0] < b[0] || (a[0] == b[0] && StringLe(a[1..], b[1..]))))
  }

  lemma {:induction false} StringTotal(a: string, b: string)
    ensures StringLe(a, b) || StringLe(b, a)
  {
    if a != "" && b != "" { StringTotal(a[1..], b[1..]); }
  }

  lemma {:induction false} StringTransitive(a: string, b: string, c: string)
    requires StringLe(a, b) && StringLe(b, c)
    ensures StringLe(a, c)
  {
    if a != "" && b != "" && c != "" && a[0] == b[0] == c[0] { StringTransitive(a[1..], b[1..], c[1..]); }
  }

  predicate BySessions(a: Referrer, b: Referrer) {
    a.sessions > b.sessions || (a.sessions == b.sessions && StringLe(a.host, b.host))
  }

  predicate ByTotal(a: Ligne, b: Ligne) {
    a.parCanal.Somme() > b.parCanal.Somme() || (a.parCanal.Somme() == b.parCanal.Somme() && StringLe(a.route, b.route))
  }

  /** The alphabet of code units: a text before those it begins, else the smaller at the first difference. */
  lemma {:induction false} StringLeExactly(a: string, b: string)
    ensures StringLe(a, b) <==> a <= b || exists k :: FirstDifference(a, b, k) && a[k] < b[k]
  {
    if a != "" && b != "" {
      StringLeExactly(a[1..], b[1..]);
      assert a == [a[0]] + a[1..] && b == [b[0]] + b[1..];
      if a[0] == b[0] {
        if k :| FirstDifference(a[1..], b[1..], k) && a[1..][k] < b[1..][k] { assert FirstDifference(a, b, k + 1); }
        if k :| FirstDifference(a, b, k) && a[k] < b[k] { assert FirstDifference(a[1..], b[1..], k - 1); }
      } else {
        assert FirstDifference(a, b, 0);
      }
    }
  }

  predicate FirstDifference(a: string, b: string, k: int) {
    0 <= k < |a| && k < |b| && a[k] != b[k] && forall i :: 0 <= i < k ==> a[i] == b[i]
  }

  /** In the report, a host before another has more sessions, or as many and comes first in the alphabet; so does a route, by its entries. */
  lemma RankingsOnFields(refs: seq<Referrer>, lignes: seq<Ligne>, i: nat, j: nat)
    ensures i < j < |refs| && Sorted(refs, BySessions) ==>
              refs[i].sessions >= refs[j].sessions && (refs[i].sessions == refs[j].sessions ==> StringLe(refs[i].host, refs[j].host))
    ensures i < j < |lignes| && Sorted(lignes, ByTotal) ==>
              var x, y := lignes[i].parCanal, lignes[j].parCanal;
              var m, n := x.direct + x.search + x.social + x.referral + x.internal, y.direct + y.search + y.social + y.referral + y.internal;
              m >= n && (m == n ==> StringLe(lignes[i].route, lignes[j].route))
  {
  }

  lemma RankingsAreOrders()
    ensures Preorder(BySessions) && Preorder(ByTotal)
  {
    forall a: string, b: string ensures StringLe(a, b) || StringLe(b, a) { StringTotal(a, b); }
    forall a: string, b: string, c: string | StringLe(a, b) && StringLe(b, c) ensures StringLe(a, c) { StringTransitive(a, b, c); }
  }

  /** The list as it is shown: ranked, cut at `top`. */
  function Top<T>(s: seq<T>, le: (T, T) -> bool, top: nat): seq<T> {
    Sort(s, le)[..Min(top, |s|)]
  }

  /** What is shown of a list: ranked, all of it from the list, and what it leaves out ranks after a full list. */
  ghost predicate CutOf<T(!new)>(shown: seq<T>, s: seq<T>, le: (T, T) -> bool, top: nat) {
    && Sorted(shown, le) && |shown| <= top && (forall y :: y in shown ==> y in s)
    && forall x :: x in s && x !in shown ==> |shown| == top && forall y :: y in shown ==> le(y, x)
  }

  /** What the cut keeps ranks before what it leaves out, and nothing else is lost. */
  lemma TopIsFirst<T(!new)>(s: seq<T>, le: (T, T) -> bool, top: nat, x: T)
    requires Preorder(le) && x in s && x !in Top(s, le, top)
    ensures |Top(s, le, top)| == top && forall y :: y in Top(s, le, top) ==> le(y, x)
  {
    var r := Sort(s, le);
    SortMembers(s, le);
    SortSorts(s, le);
    var k :| 0 <= k < |r| && r[k] == x;
    assert forall j :: 0 <= j < Min(top, |s|) ==> Top(s, le, top)[j] == r[j] && r[j] in Top(s, le, top);
    forall y | y in Top(s, le, top) ensures le(y, x) {
      var i :| 0 <= i < |Top(s, le, top)| && Top(s, le, top)[i] == y;
      assert r[i] == y && i < k;
    }
  }

  lemma TopIsCut<T(!new)>(s: seq<T>, le: (T, T) -> bool, top: nat)
    requires Preorder(le)
    ensures CutOf(Top(s, le, top), s, le, top)
  {
    SortMembers(s, le);
    SortSorts(s, le);
    forall y | y in Top(s, le, top) ensures y in s { assert y in Sort(s, le); }
    forall x | x in s && x !in Top(s, le, top) ensures |Top(s, le, top)| == top && forall y :: y in Top(s, le, top) ==> le(y, x) {
      TopIsFirst(s, le, top, x);
    }
  }

  datatype Report = Report(channels: seq<(Channel, nat)>, referrers: seq<Referrer>, total: nat, entrees: seq<Ligne>, routesEntree: nat)

  lemma OneMoreEntry(entries: seq<Entree>, i: nat)
    requires i < |entries|
    ensures Channels(entries[..i + 1]) == Channels(entries[..i]).Plus(ChannelOf(entries[i]))
    ensures ReferAll(entries[..i + 1]) == Refer(ReferAll(entries[..i]), entries[i])
    ensures EnterAll(entries[..i + 1]) == Enter(EnterAll(entries[..i]), entries[i])
  {
    assert entries[..i + 1][..i] == entries[..i];
  }

  /** The loop of the report: one pass, three tallies. */
  method Tally(entries: seq<Entree>) returns (chan: Canaux, refs: seq<Referrer>, routes: seq<Ligne>)
    ensures chan == Channels(entries) && refs == ReferAll(entries) && routes == EnterAll(entries)
  {
    chan, refs, routes := ZERO, [], [];
    for i := 0 to |entries|
      invariant chan == Channels(entries[..i])
      invariant refs == ReferAll(entries[..i]) && routes == EnterAll(entries[..i])
    {
      OneMoreEntry(entries, i);
      var e := entries[i];
      var c := ChannelOf(e);
      chan := chan.Plus(c);
      if c == Referral || c == Search || c == Social {
        var at := HostAt(refs, e.ref.value);
        if at.Some? {
          refs := refs[at.value := refs[at.value].(sessions := refs[at.value].sessions + 1)];
        } else {
          refs := refs + [Referrer(e.ref.value, c, 1)];
        }
      }
      routes := Enter(routes, e);
    }
    assert entries[..|entries|] == entries;
  }

  method AcquisitionReport(entries: seq<Entree>, topReferrers: nat, topEntrees: nat) returns (r: Report)
    ensures |r.channels| == 5 && forall k :: 0 <= k < 5 ==> r.channels[k] == (CHANNELS[k], ByChannel(entries, CHANNELS[k]))
    ensures r.total == |entries|
    ensures r.referrers == Top(ReferAll(entries), BySessions, topReferrers)
    ensures r.entrees == Top(EnterAll(entries), ByTotal, topEntrees)
    ensures CutOf(r.referrers, ReferAll(entries), BySessions, topReferrers)
    ensures CutOf(r.entrees, EnterAll(entries), ByTotal, topEntrees)
    ensures r.routesEntree == |EnterAll(entries)|
  {
    var chan, refs, routes := Tally(entries);
    RankingsAreOrders();
    TopIsCut(refs, BySessions, topReferrers);
    TopIsCut(routes, ByTotal, topEntrees);
    var channels := seq(5, k requires 0 <= k < 5 => (CHANNELS[k], chan.Of(CHANNELS[k])));
    r := Report(channels, Top(refs, BySessions, topReferrers), |entries|, Top(routes, ByTotal, topEntrees), |routes|);
  }

  /** The share of sessions that came from elsewhere, of all those read; none without a session. */
  function PartHorsDirect(c: Canaux, total: nat): Option<real> {
    if total > 0 then Some((total - c.direct - c.internal) as real / total as real) else None
  }

  /** It is the share of the three external channels. */
  lemma ShareIsExternal(entries: seq<Entree>)
    requires entries != []
    ensures var c := Channels(entries);
            var part := PartHorsDirect(c, |entries|);
            part.Some? && part.value * (|entries| as real) == (c.search + c.social + c.referral) as real
  {
    ChannelsAddUp(entries);
  }

  // ------------------------------------------------------------------ the series

  /** An entry with the start of its bucket. */
  datatype EntreeDatee = EntreeDatee(entree: Entree, t: int)

  /** `new Map(debuts.map((t, i) => [t, i]))`: of equal starts, the last. */
  function IndexOf(debuts: seq<int>, t: int): (r: Option<nat>)
    ensures r.Some? ==> r.value < |debuts| && debuts[r.value] == t
    ensures r.None? <==> t !in debuts
  {
    LastWhere(debuts, d => d == t)
  }

  /** The entries of a bucket and a channel. */
  function Cell(entries: seq<EntreeDatee>, debuts: seq<int>, k: nat, c: Channel): nat {
    if entries == [] then 0
    else
      var e := entries[|entries| - 1];
      Cell(entries[..|entries| - 1], debuts, k, c)
      + (if IndexOf(debuts, e.t) == Some(k) && ChannelOf(e.entree) == c then 1 else 0)
  }

  /** The entries of a channel whose bucket is not on the grid. */
  function OffGrid(entries: seq<EntreeDatee>, debuts: seq<int>, c: Channel): nat {
    if entries == [] then 0
    else
      var e := entries[|entries| - 1];
      OffGrid(entries[..|entries| - 1], debuts, c) + (if e.t !in debuts && ChannelOf(e.entree) == c then 1 else 0)
  }

  function AllOffGrid(entries: seq<EntreeDatee>, debuts: seq<int>): nat {
    if entries == [] then 0
    else AllOffGrid(entries[..|entries| - 1], debuts) + (if entries[|entries| - 1].t !in debuts then 1 else 0)
  }

  method SerieCanaux(entries: seq<EntreeDatee>, debuts: seq<int>) returns (points: seq<Canaux>, horsGrille: nat)
    ensures |points| == |debuts| && forall k, c :: 0 <= k < |debuts| ==> points[k].Of(c) == Cell(entries, debuts, k, c)
    ensures horsGrille == AllOffGrid(entries, debuts)
  {
    points := seq(|debuts|, _ => ZERO);
    horsGrille := 0;
    for i := 0 to |entries|
      invariant |points| == |debuts| && forall k, c :: 0 <= k < |debuts| ==> points[k].Of(c) == Cell(entries[..i], debuts, k, c)
      invariant horsGrille == AllOffGrid(entries[..i], debuts)
    {
      var e := entries[i];
      assert entries[..i + 1][..i] == entries[..i];
      var k := IndexOf(debuts, e.t);
      if k.None? {
        horsGrille := horsGrille + 1;
      } else {
        points := points[k.value := points[k.value].Plus(ChannelOf(e.entree))];
      }
    }
    assert entries[..|entries|] == entries;
  }

  /** The sum of a channel over the first `n` buckets. */
  function OverGrid(entries: seq<EntreeDatee>, debuts: seq<int>, n: nat, c: Channel): nat {
    if n == 0 then 0 else OverGrid(entries, debuts, n - 1, c) + Cell(entries, debuts, n - 1, c)
  }

  lemma {:induction false} OneMoreDated(entries: seq<EntreeDatee>, debuts: seq<int>, n: nat, c: Channel)
    requires entries != []
    ensures var e := entries[|entries| - 1];
            OverGrid(entries, debuts, n, c) == OverGrid(entries[..|entries| - 1], debuts, n, c)
              + (if IndexOf(debuts, e.t).Some? && IndexOf(debuts, e.t).value < n && ChannelOf(e.entree) == c then 1 else 0)
  {
    if n > 0 { OneMoreDated(entries, debuts, n - 1, c); }
  }

  lemma {:induction false} NoDated(debuts: seq<int>, n: nat, c: Channel)
    ensures OverGrid([], debuts, n, c) == 0
  {
    if n > 0 { NoDated(debuts, n - 1, c); }
  }

  function Entrees(entries: seq<EntreeDatee>): seq<Entree> {
    if entries == [] then [] else Entrees(entries[..|entries| - 1]) + [entries[|entries| - 1].entree]
  }

  /** Channel by channel, the cells and the entries off the grid are all the entries, even on a grid with equal starts. */
  lemma {:induction false} SeriesIsConserved(entries: seq<EntreeDatee>, debuts: seq<int>, c: Channel)
    ensures OverGrid(entries, debuts, |debuts|, c) + OffGrid(entries, debuts, c) == ByChannel(Entrees(entries), c)
  {
    if entries == [] {
      NoDated(debuts, |debuts|, c);
    } else {
      var avant := entries[..|entries| - 1];
      SeriesIsConserved(avant, debuts, c);
      OneMoreDated(entries, debuts, |debuts|, c);
      assert Entrees(entries)[..|Entrees(entries)| - 1] == Entrees(avant);
    }
  }

  /** The count of entries off the grid is that of all channels. */
  lemma {:induction false} OffGridAddsUp(entries: seq<EntreeDatee>, debuts: seq<int>)
    ensures AllOffGrid(entries, debuts)
         == OffGrid(entries, debuts, Direct) + OffGrid(entries, debuts, Search) + OffGrid(entries, debuts, Social)
            + OffGrid(entries, debuts, Referral) + OffGrid(entries, debuts, Internal)
  {
    if entries != [] { OffGridAddsUp(entries[..|entries| - 1], debuts); }
  }
}
