/**
 The server-side client of console-api. Its state is shared by all the calls of an instance, which
 interleave at every `await`; a step here is what runs between two of them. Instants are milliseconds.
 */
module Backend {
  import opened Basics

  const POIGNEE_VALABLE_MS := 600_000
  const BUDGET_NOUVEL_ESSAI_MS := 2_000

  /** How a handshake ends: the host proved itself, did not, or the attempt threw. */
  datatype Outcome = Accepted | Unproved | Threw

  /** A response signed by the service is final whatever it says; an unsigned one comes from the router. */
  datatype Reply = NetworkError(aborted: bool) | Unsigned(status: int) | Signed(status: int)

  datatype Resultat = HoteNonVerifie | Exception | Reseau | Indisponible(status: int) | Repondu(status: int)

  /** The closure state: until when the host is believed, and the handshake under way. */
  datatype Host = Host(valableJusqua: int, enCours: Option<nat>, suivante: nat)

  datatype Attente = Verifie | Attend(poignee: nat)

  // ------------------------------------------------------------------ one call, one attempt

  predicate Retriable(reply: Reply) {
    match reply
    case NetworkError(aborted) => !aborted
    case Unsigned(status) => status in {502, 503, 504}
    case Signed(_) => false
  }

  /** A second attempt: a reading only, once, and only with enough of the budget left. */
  predicate Reessaie(get: bool, essai: nat, delai: int, debut: int, now: int, reply: Reply) {
    Retriable(reply) && get && essai == 1 && delai - (now - debut) >= BUDGET_NOUVEL_ESSAI_MS
  }

  function Conclusion(reply: Reply): Resultat {
    match reply
    case NetworkError(_) => Reseau
    case Unsigned(status) => Indisponible(status)
    case Signed(status) => Repondu(status)
  }

  /** The result of a call is its last reply: the service's own status, the router's, or nothing came back. */
  predicate Bears(r: Resultat, reply: Reply) {
    && (r.Repondu? <==> reply.Signed?) && (r.Repondu? && reply.Signed? ==> r.status == reply.status)
    && (r.Indisponible? <==> reply.Unsigned?) && (r.Indisponible? && reply.Unsigned? ==> r.status == reply.status)
    && (r == Reseau <==> reply.NetworkError?)
  }

  /** A fault that may not last: the network, unless the caller gave up, or a router without its service. */
  predicate Passing(reply: Reply) {
    || (reply.NetworkError? && !reply.aborted)
    || (reply.Unsigned? && (reply.status == 502 || reply.status == 503 || reply.status == 504))
  }

  /** The attempts of one call once its host is verified: `replies[i]` is what attempt `i + 1` meets, and when. */
  method Tenter(get: bool, delai: int, debut: int, replies: seq<(Reply, int)>) returns (r: Resultat, envois: nat)
    requires |replies| >= 2
    ensures 1 <= envois <= if get then 2 else 1
    ensures Bears(r, replies[envois - 1].0)
    ensures envois == 2 <==> Passing(replies[0].0) && get && delai - (replies[0].1 - debut) >= 2_000
  {
    var essai := 1;
    while true
      invariant 1 <= essai <= 2
      invariant essai == 2 ==> Reessaie(get, 1, delai, debut, replies[0].1, replies[0].0)
      decreases 2 - essai
    {
      var (reply, now) := replies[essai - 1];
      if Reessaie(get, essai, delai, debut, now, reply) {
        essai := essai + 1;
        continue;
      }
      return Conclusion(reply), essai;
    }
  }

  // ------------------------------------------------------------------ the shared state

  function Verify(h: Host, now: int): (Host, Attente) {
    if now < h.valableJusqua then (h, Verifie)
    else if h.enCours.Some? then (h, Attend(h.enCours.value))
    else (h.(enCours := Some(h.suivante), suivante := h.suivante + 1), Attend(h.suivante))
  }

  function Settle(h: Host, outcome: Outcome, now: int): Host {
    if outcome == Accepted then h.(valableJusqua := now + POIGNEE_VALABLE_MS) else h
  }

  function Clear(h: Host): Host {
    h.(enCours := None)
  }

  /**
   Between two ends of handshake callers share one: once a caller waits, every later one waits for the
   same handshake and starts none; one is started only when none is under way and none is valid.
   */
  lemma CallersShare(h: Host, now: int, later: int)
    ensures var (h', attente) := Verify(h, now);
            var (h'', suite) := Verify(h', later);
            && (attente.Verifie? <==> now < h.valableJusqua)
            && (attente.Attend? ==> h'' == h' && (suite.Verifie? || suite == attente))
            && (h' != h ==> h.enCours.None? && now >= h.valableJusqua && h'.enCours == Some(attente.poignee))
  {
  }

  /**
   A proof is good for ten minutes from its end; any other end leaves the validity as it was. Once its
   place is freed, a caller that is not served starts a handshake of its own.
   */
  lemma ProofLasts(h: Host, outcome: Outcome, fin: int, now: int)
    ensures var apres := Clear(Settle(h, outcome, fin));
            && (Verify(apres, now).1.Verifie? <==>
                 if outcome == Accepted then now - fin < 600_000 else now < h.valableJusqua)
            && (Verify(apres, now).1.Attend? ==> Verify(apres, now).1 == Attend(h.suivante))
  {
  }

  class Client {
    var poigneeValableJusqua: int
    var poigneeEnCours: Option<nat>
    var suivante: nat

    function State(): Host
      reads this
    {
      Host(poigneeValableJusqua, poigneeEnCours, suivante)
    }

    constructor ()
      ensures State() == Host(0, None, 0)
    {
      poigneeValableJusqua, poigneeEnCours, suivante := 0, None, 0;
    }

    /** `hoteVerifie`, up to its `await`: a handshake is started only if none is under way. */
    method HoteVerifie(now: int) returns (attente: Attente)
      modifies this
      ensures (State(), attente) == Verify(old(State()), now)
    {
      if now < poigneeValableJusqua { return Verifie; }
      if poigneeEnCours.None? {
        poigneeEnCours := Some(suivante);
        suivante := suivante + 1;
      }
      return Attend(poigneeEnCours.value);
    }

    /** The end of `poignee`: only a proof extends the validity. */
    method PoigneeRendue(outcome: Outcome, now: int)
      modifies this
      ensures State() == Settle(old(State()), outcome, now)
    {
      if outcome == Accepted { poigneeValableJusqua := now + POIGNEE_VALABLE_MS; }
    }

    /** The `finally` that follows: the next caller starts another one. */
    method PoigneeFinie()
      modifies this
      ensures State() == Clear(old(State()))
    {
      poigneeEnCours := None;
    }
  }

  // ------------------------------------------------------------------ all the calls together

  /** What a call finds when it begins: a handshake still valid, one under way, or none. */
  datatype Vue = Voit | Rejoint(poignee: nat) | Demarre(poignee: nat)

  /** Why a call may carry the secret: a handshake it saw to be recent, or one it waited for. */
  datatype Permit = SawRecent(poignee: nat, at: int) | AwaitedSuccess(poignee: nat)

  datatype Phase = Waiting(poignee: nat) | Verified | InFlight | Pausing | Done(r: Resultat)

  /** `rang`: where the call begins in the trace, at instant `at`; `envoi`: where it first sends, at instant `debut`. */
  datatype Call = Call(get: bool, delai: int, phase: Phase, permit: Option<Permit>, debut: int, essai: nat, at: int, vue: Vue, rang: nat, envoi: nat)

  /** What follows a reply: another attempt after a pause, or the end of the call. */
  datatype Suite = Pause(budget: int) | Termine(r: Resultat)

  datatype Event =
    | Called(call: nat, get: bool, delai: int, at: int, vue: Vue)
    | HandshakeEnded(poignee: nat, outcome: Outcome, at: int)
    | Freed(poignee: nat)
    | SecretSent(call: nat, essai: nat, permit: Permit, at: int)
    | Answered(call: nat, reply: Reply, at: int, suite: Suite)
    | GivenUp(call: nat, r: Resultat)

  /** How, when, and where in the trace a handshake ended. */
  datatype Fin = Fin(outcome: Outcome, at: int, rang: nat)

  /** `derniere`: the last handshake accepted. */
  datatype Sys = Sys(host: Host, calls: map<nat, Call>, rendues: map<nat, Fin>, derniere: Option<nat>, trace: seq<Event>)

  const START := Sys(Host(0, None, 0), map[], map[], None, [])

  datatype Step =
    | Begin(c: nat, get: bool, delai: int, now: int)
    | End(outcome: Outcome, now: int)
    | Finally
    | Resume(c: nat)
    | Send(c: nat, now: int)
    | Return(c: nat, reply: Reply, now: int)
    | EndPause(c: nat, now: int)

  predicate Enabled(s: Sys, step: Step) {
    match step
    case Begin(c, _, _, now) => c !in s.calls && now >= 0
    case End(_, _) => s.host.enCours.Some? && s.host.enCours.value !in s.rendues
    case Finally => s.host.enCours.Some? && s.host.enCours.value in s.rendues
    case Resume(c) => c in s.calls && s.calls[c].phase.Waiting?
                      && s.calls[c].phase.poignee in s.rendues && s.host.enCours != Some(s.calls[c].phase.poignee)
    case Send(c, _) => c in s.calls && s.calls[c].phase == Verified
    case Return(c, _, _) => c in s.calls && s.calls[c].phase == InFlight
    case EndPause(c, _) => c in s.calls && s.calls[c].phase == Pausing
  }

  function VueOf(h: Host, now: int): Vue {
    if now < h.valableJusqua then Voit
    else if h.enCours.Some? then Rejoint(h.enCours.value)
    else Demarre(h.suivante)
  }

  /** A call that begins: verified at once if the host still is, else waiting for a handshake. */
  function NewCall(s: Sys, get: bool, delai: int, now: int): Call
    requires now < s.host.valableJusqua ==> s.derniere.Some?
  {
    var vue := VueOf(s.host, now);
    match Verify(s.host, now).1
    case Verifie => Call(get, delai, Verified, Some(SawRecent(s.derniere.value, now)), 0, 0, now, vue, |s.trace|, 0)
    case Attend(p) => Call(get, delai, Waiting(p), None, 0, 0, now, vue, |s.trace|, 0)
  }

  /** What the invariant grants an enabled step: who is served or sends has a proof to name. */
  predicate CanStep(s: Sys, step: Step) {
    && Enabled(s, step)
    && (step.Begin? && step.now < s.host.valableJusqua ==> s.derniere.Some?)
    && (step.Send? || step.EndPause? ==> s.calls[step.c].permit.Some?)
  }

  function Next(s: Sys, step: Step): Sys
    requires CanStep(s, step)
  {
    match step
    case Begin(c, get, delai, now) =>
      s.(host := Verify(s.host, now).0, calls := s.calls[c := NewCall(s, get, delai, now)],
         trace := s.trace + [Called(c, get, delai, now, VueOf(s.host, now))])
    case End(outcome, now) =>
      var p := s.host.enCours.value;
      s.(host := Settle(s.host, outcome, now), rendues := s.rendues[p := Fin(outcome, now, |s.trace|)],
         derniere := if outcome == Accepted then Some(p) else s.derniere,
         trace := s.trace + [HandshakeEnded(p, outcome, now)])
    case Finally => s.(host := Clear(s.host), trace := s.trace + [Freed(s.host.enCours.value)])
    case Resume(c) =>
      var call := s.calls[c];
      var p := call.phase.poignee;
      (match s.rendues[p].outcome
      case Accepted => s.(calls := s.calls[c := call.(phase := Verified, permit := Some(AwaitedSuccess(p)))])
      case Unproved => s.(calls := s.calls[c := call.(phase := Done(HoteNonVerifie))], trace := s.trace + [GivenUp(c, HoteNonVerifie)])
      case Threw => s.(calls := s.calls[c := call.(phase := Done(Exception))], trace := s.trace + [GivenUp(c, Exception)]))
    case Send(c, now) =>
      s.(calls := s.calls[c := s.calls[c].(phase := InFlight, debut := now, essai := 1, envoi := |s.trace|)],
         trace := s.trace + [SecretSent(c, 1, s.calls[c].permit.value, now)])
    case Return(c, reply, now) =>
      var call := s.calls[c];
      var suite := SuiteOf(call, reply, now);
      s.(calls := s.calls[c := call.(phase := if suite.Pause? then Pausing else Done(suite.r))],
         trace := s.trace + [Answered(c, reply, now, suite)])
    case EndPause(c, now) =>
      s.(calls := s.calls[c := s.calls[c].(phase := InFlight, essai := 2)],
         trace := s.trace + [SecretSent(c, 2, s.calls[c].permit.value, now)])
  }

  function SuiteOf(call: Call, reply: Reply, now: int): Suite {
    if Reessaie(call.get, call.essai, call.delai, call.debut, now, reply) then Pause(call.delai - (now - call.debut))
    else Termine(Conclusion(reply))
  }

  // ------------------------------------------------------------------ what a trace allows

  /** How many times a call has sent the secret. */
  function Sends(trace: seq<Event>, c: nat): nat {
    if trace == [] then 0
    else Sends(trace[..|trace| - 1], c) + if trace[|trace| - 1].SecretSent? && trace[|trace| - 1].call == c then 1 else 0
  }

  /** How many of its attempts were answered. */
  function Answers(trace: seq<Event>, c: nat): nat {
    if trace == [] then 0
    else Answers(trace[..|trace| - 1], c) + if trace[|trace| - 1].Answered? && trace[|trace| - 1].call == c then 1 else 0
  }

  /** The result an event gives to a call, if it ends it. */
  function Ends(e: Event, c: nat): Option<Resultat> {
    if e.Answered? && e.call == c && e.suite.Termine? then Some(e.suite.r)
    else if e.GivenUp? && e.call == c then Some(e.r)
    else None
  }

  function EndOf(trace: seq<Event>, c: nat): Option<Resultat> {
    if trace == [] then None
    else if Ends(trace[|trace| - 1], c).Some? then Ends(trace[|trace| - 1], c)
    else EndOf(trace[..|trace| - 1], c)
  }

  function LastReply(trace: seq<Event>, c: nat): Option<Reply> {
    if trace == [] then None
    else if trace[|trace| - 1].Answered? && trace[|trace| - 1].call == c then Some(trace[|trace| - 1].reply)
    else LastReply(trace[..|trace| - 1], c)
  }

  function Started(trace: seq<Event>): nat {
    if trace == [] then 0
    else Started(trace[..|trace| - 1]) + if trace[|trace| - 1].Called? && trace[|trace| - 1].vue.Demarre? then 1 else 0
  }

  function Ended(trace: seq<Event>): nat {
    if trace == [] then 0
    else Ended(trace[..|trace| - 1]) + if trace[|trace| - 1].HandshakeEnded? then 1 else 0
  }

  function Released(trace: seq<Event>): nat {
    if trace == [] then 0
    else Released(trace[..|trace| - 1]) + if trace[|trace| - 1].Freed? then 1 else 0
  }

  datatype Preuve = Preuve(poignee: nat, at: int)

  /** The last proof of the host, and when it ended. */
  function Proof(trace: seq<Event>): Option<Preuve> {
    if trace == [] then None
    else
      var e := trace[|trace| - 1];
      if e.HandshakeEnded? && e.outcome == Accepted then Some(Preuve(e.poignee, e.at)) else Proof(trace[..|trace| - 1])
  }

  /** What a call finds, told from the past alone: the last proof if it is less than ten minutes old, else the handshake not freed yet. */
  function Seen(trace: seq<Event>, now: int): Vue {
    var preuve := Proof(trace);
    if preuve.Some? && now - preuve.value.at < POIGNEE_VALABLE_MS then Voit
    else if Started(trace) > Released(trace) then Rejoint(Started(trace) - 1)
    else Demarre(Started(trace))
  }

  predicate Waits(vue: Vue, p: nat) {
    vue == Rejoint(p) || vue == Demarre(p)
  }

  /**
   The permit of a call that began at `j` rests on the handshake that ended at `k`: accepted before the
   call and less than ten minutes old when it looked, or waited for by the call. (A call that comes between
   the end of a handshake and the freeing of its place waits for it only if that end is ten minutes old.)
   */
  predicate Justified(trace: seq<Event>, j: nat, k: nat, c: nat, permit: Permit) {
    && j < |trace| && k < |trace| && trace[j].Called? && trace[j].call == c
    && trace[k].HandshakeEnded? && trace[k].poignee == permit.poignee && trace[k].outcome == Accepted
    && match permit
       case SawRecent(_, at) => trace[j].vue == Voit && trace[j].at == at && k < j && at - trace[k].at < POIGNEE_VALABLE_MS
       case AwaitedSuccess(p) => Waits(trace[j].vue, p) && (j < k || trace[j].at - trace[k].at >= POIGNEE_VALABLE_MS)
  }

  /** Each event, where it stands in the trace, is allowed by what stands before it. */
  ghost predicate EventAllowed(trace: seq<Event>, i: nat)
    requires i < |trace|
  {
    match trace[i]
    case Called(c, _, _, at, vue) =>
      && (forall j :: 0 <= j < i && trace[j].Called? ==> trace[j].call != c)
      && vue == Seen(trace[..i], at)
    case HandshakeEnded(p, _, _) => Started(trace[..i]) == p + 1 && Ended(trace[..i]) == p
    case Freed(p) => Started(trace[..i]) == Ended(trace[..i]) == p + 1 && Released(trace[..i]) == p
    case SecretSent(c, essai, permit, _) =>
      && essai == Sends(trace[..i], c) + 1 <= 2 && Answers(trace[..i], c) == essai - 1 && EndOf(trace[..i], c).None?
      && (exists j, k :: 0 <= j < i && 0 <= k < i && Justified(trace, j, k, c, permit))
    case Answered(c, reply, at, suite) =>
      && Sends(trace[..i], c) == Answers(trace[..i], c) + 1 && EndOf(trace[..i], c).None?
      && (exists j, l :: 0 <= j < i && 0 <= l < i && Follows(trace, j, l, c, Sends(trace[..i], c), reply, at, suite))
    case GivenUp(c, r) =>
      && Sends(trace[..i], c) == 0 && EndOf(trace[..i], c).None?
      && (exists j, k :: 0 <= j < i && 0 <= k < i && LetDown(trace, j, k, c, r))
  }

  /**
   What a call that began at `j` and first sent at `l` does of a reply: it tries again only if it reads, at its
   first attempt, after a passing fault, with two seconds left of the delay counted from that first sending; else
   it ends with what the reply says.
   */
  predicate Follows(trace: seq<Event>, j: nat, l: nat, c: nat, essai: nat, reply: Reply, at: int, suite: Suite) {
    && j < |trace| && l < |trace| && trace[j].Called? && trace[j].call == c
    && trace[l].SecretSent? && trace[l].call == c && trace[l].essai == 1
    && var budget := trace[j].delai - (at - trace[l].at);
       && (suite.Pause? <==> trace[j].get && essai == 1 && Passing(reply) && budget >= 2_000)
       && (if suite.Pause? then suite.budget == budget else Bears(suite.r, reply))
  }

  /** A call that began at `j` waited for the handshake that ended at `k` without a proof, and says how. */
  predicate LetDown(trace: seq<Event>, j: nat, k: nat, c: nat, r: Resultat) {
    && j < |trace| && k < |trace| && trace[j].Called? && trace[j].call == c
    && trace[k].HandshakeEnded? && Waits(trace[j].vue, trace[k].poignee)
    && ((r == HoteNonVerifie && trace[k].outcome == Unproved) || (r == Exception && trace[k].outcome == Threw))
  }

  ghost predicate TraceSafe(trace: seq<Event>) {
    forall i :: 0 <= i < |trace| ==> EventAllowed(trace, i)
  }

  // ------------------------------------------------------------------ what every step keeps

  predicate HostInv(s: Sys) {
    && (s.host.enCours.Some? ==> s.host.enCours.value + 1 == s.host.suivante)
    && (forall p :: p in s.rendues ==> p < s.host.suivante)
    && (forall p :: 0 <= p < s.host.suivante ==> p in s.rendues || s.host.enCours == Some(p))
    && (if s.derniere.None? then s.host.valableJusqua == 0
        else s.derniere.value in s.rendues && s.rendues[s.derniere.value].outcome == Accepted
             && s.host.valableJusqua == s.rendues[s.derniere.value].at + POIGNEE_VALABLE_MS)
    && (s.host.enCours.Some? && s.host.enCours.value in s.rendues && s.rendues[s.host.enCours.value].outcome == Accepted ==>
          s.derniere == s.host.enCours)
  }

  /** The endings remembered are in the trace. */
  predicate FinsInv(s: Sys) {
    forall p :: p in s.rendues ==>
      s.rendues[p].rang < |s.trace| && s.trace[s.rendues[p].rang] == HandshakeEnded(p, s.rendues[p].outcome, s.rendues[p].at)
  }

  /** A call that waits began before the handshake ended, or too long after it to be served by it. */
  predicate Awaits(s: Sys, call: Call, p: nat) {
    && Waits(call.vue, p)
    && (p in s.rendues && s.rendues[p].outcome == Accepted ==>
          call.rang < s.rendues[p].rang || call.at - s.rendues[p].at >= POIGNEE_VALABLE_MS)
  }

  predicate Grounded(s: Sys, c: nat, call: Call, permit: Permit) {
    permit.poignee in s.rendues && Justified(s.trace, call.rang, s.rendues[permit.poignee].rang, c, permit)
  }

  predicate FirstSend(trace: seq<Event>, l: nat, c: nat, at: int) {
    l < |trace| && trace[l].SecretSent? && trace[l].call == c && trace[l].essai == 1 && trace[l].at == at
  }

  predicate CallInv(s: Sys, c: nat)
    requires c in s.calls
  {
    var call := s.calls[c];
    && call.rang < |s.trace| && s.trace[call.rang] == Called(c, call.get, call.delai, call.at, call.vue)
    && (call.essai > 0 ==> FirstSend(s.trace, call.envoi, c, call.debut))
    && (call.phase.Waiting? ==> call.phase.poignee < s.host.suivante && Awaits(s, call, call.phase.poignee))
    && (call.phase.Verified? || call.essai > 0 ==> call.permit.Some?)
    && (call.permit.Some? ==> Grounded(s, c, call, call.permit.value))
    && (call.phase.Waiting? || call.phase.Verified? ==> call.essai == 0)
    && (call.phase.InFlight? ==> call.essai == 1 || (call.essai == 2 && call.get))
    && (call.phase.Pausing? ==> call.get && call.essai == 1)
    && (call.phase.Waiting? ==> Waits(call.vue, call.phase.poignee))
    && call.essai <= (if call.get then 2 else 1)
  }

  /** In flight now: 1 while a handshake has started and not ended. */
  function Flying(s: Sys): nat {
    if s.host.enCours.Some? && s.host.enCours.value !in s.rendues then 1 else 0
  }

  /** What the trace tells of a call is where it stands. */
  ghost predicate CallTraced(s: Sys, c: nat) {
    && Sends(s.trace, c) == Attempts(s, c) && Answers(s.trace, c) == Replies(s, c) && EndOf(s.trace, c) == Ending(s, c)
  }

  function Replies(s: Sys, c: nat): int {
    if c in s.calls then s.calls[c].essai - (if s.calls[c].phase.InFlight? then 1 else 0) else 0
  }

  function Ending(s: Sys, c: nat): Option<Resultat> {
    if c in s.calls && s.calls[c].phase.Done? then Some(s.calls[c].phase.r) else None
  }

  /** How many times a call has sent, in a state. */
  function Attempts(s: Sys, c: nat): nat {
    if c in s.calls then s.calls[c].essai else 0
  }

  /** 1 while a handshake holds its place. */
  function Held(s: Sys): nat {
    if s.host.enCours.Some? then 1 else 0
  }

  function LastProof(s: Sys): Option<Preuve> {
    if s.derniere.Some? && s.derniere.value in s.rendues
    then Some(Preuve(s.derniere.value, s.rendues[s.derniere.value].at)) else None
  }

  /** The host, as the trace tells it. */
  ghost predicate HostTraced(s: Sys) {
    && Started(s.trace) == s.host.suivante && Ended(s.trace) + Flying(s) == s.host.suivante
    && Released(s.trace) + Held(s) == s.host.suivante && Proof(s.trace) == LastProof(s)
  }

  ghost predicate CalledAreKnown(s: Sys) {
    forall i :: 0 <= i < |s.trace| && s.trace[i].Called? ==> s.trace[i].call in s.calls
  }

  ghost predicate TraceInv(s: Sys) {
    && HostTraced(s)
    && (forall c :: CallTraced(s, c))
    && CalledAreKnown(s)
  }

  ghost predicate Inv(s: Sys) {
    HostInv(s) && FinsInv(s) && (forall c :: c in s.calls ==> CallInv(s, c)) && TraceInv(s)
  }

  lemma AppendCounts(trace: seq<Event>, e: Event)
    ensures Started(trace + [e]) == Started(trace) + if e.Called? && e.vue.Demarre? then 1 else 0
    ensures Ended(trace + [e]) == Ended(trace) + if e.HandshakeEnded? then 1 else 0
    ensures Released(trace + [e]) == Released(trace) + if e.Freed? then 1 else 0
    ensures Proof(trace + [e])
         == if e.HandshakeEnded? && e.outcome == Accepted then Some(Preuve(e.poignee, e.at)) else Proof(trace)
    ensures forall c :: Sends(trace + [e], c) == Sends(trace, c) + if e.SecretSent? && e.call == c then 1 else 0
    ensures forall c :: Answers(trace + [e], c) == Answers(trace, c) + if e.Answered? && e.call == c then 1 else 0
    ensures forall c :: EndOf(trace + [e], c) == if Ends(e, c).Some? then Ends(e, c) else EndOf(trace, c)
  {
    assert (trace + [e])[..|trace|] == trace;
  }

  lemma AllowedLater(trace: seq<Event>, e: Event, i: nat)
    requires i < |trace| && EventAllowed(trace, i)
    ensures EventAllowed(trace + [e], i)
  {
    assert (trace + [e])[..i] == trace[..i];
    match trace[i] {
      case SecretSent(c, _, permit, _) =>
        var j, k :| 0 <= j < i && 0 <= k < i && Justified(trace, j, k, c, permit);
        assert Justified(trace + [e], j, k, c, permit);
      case Answered(c, reply, at, suite) =>
        var j, l :| 0 <= j < i && 0 <= l < i && Follows(trace, j, l, c, Sends(trace[..i], c), reply, at, suite);
        assert Follows(trace + [e], j, l, c, Sends(trace[..i], c), reply, at, suite);
      case GivenUp(c, r) =>
        var j, k :| 0 <= j < i && 0 <= k < i && LetDown(trace, j, k, c, r);
        assert LetDown(trace + [e], j, k, c, r);
      case _ =>
    }
  }

  lemma AppendSafe(trace: seq<Event>, e: Event)
    requires TraceSafe(trace) && EventAllowed(trace + [e], |trace|)
    ensures TraceSafe(trace + [e])
  {
    forall i | 0 <= i < |trace + [e]| ensures EventAllowed(trace + [e], i) {
      if i < |trace| { AllowedLater(trace, e, i); }
    }
  }

  lemma NextKeepsHost(s: Sys, step: Step)
    requires HostInv(s) && CanStep(s, step)
    ensures HostInv(Next(s, step))
  {
    if step.Begin? {
      BeginKeepsHost(s, step);
    } else if !step.End? && !step.Finally? {
      HostStays(s, step);
    }
  }

  lemma BeginKeepsHost(s: Sys, step: Step)
    requires HostInv(s) && CanStep(s, step) && step.Begin?
    ensures HostInv(Next(s, step))
  {
  }

  lemma HostStays(s: Sys, step: Step)
    requires CanStep(s, step) && !step.Begin? && !step.End? && !step.Finally?
    ensures var s' := Next(s, step);
            s'.host == s.host && s'.rendues == s.rendues && s'.derniere == s.derniere
  {
  }

  lemma NextKeepsFins(s: Sys, step: Step)
    requires FinsInv(s) && CanStep(s, step)
    ensures FinsInv(Next(s, step))
  {
    var s' := Next(s, step);
    NextTrace(s, step);
    assert forall p :: p in s.rendues ==> s'.trace[s.rendues[p].rang] == s.trace[s.rendues[p].rang];
  }

  /** A call that does not move keeps its invariant: handshakes and events only accumulate. */
  lemma StillCall(s: Sys, s': Sys, c: nat)
    requires c in s.calls && c in s'.calls && s'.calls[c] == s.calls[c] && CallInv(s, c)
    requires s.host.suivante <= s'.host.suivante && s.trace <= s'.trace
    requires forall p :: p in s.rendues ==> p in s'.rendues && s'.rendues[p] == s.rendues[p]
    requires forall p :: p in s'.rendues && p !in s.rendues ==> s'.rendues[p].rang >= |s.trace|
    ensures CallInv(s', c)
  {
  }

  lemma NewCallKeeps(s: Sys, step: Step)
    requires HostInv(s) && FinsInv(s) && CanStep(s, step) && step.Begin?
    ensures CallInv(Next(s, step), step.c)
  {
    var s' := Next(s, step);
    var call := s'.calls[step.c];
    if call.permit.Some? {
      assert Justified(s'.trace, call.rang, s.rendues[s.derniere.value].rang, step.c, call.permit.value);
    }
  }

  lemma ResumeKeeps(s: Sys, c: nat)
    requires FinsInv(s) && CanStep(s, Resume(c)) && CallInv(s, c)
    ensures CallInv(Next(s, Resume(c)), c)
  {
    var call, p := s.calls[c], s.calls[c].phase.poignee;
    assert s.rendues[p].outcome == Accepted ==> Justified(s.trace, call.rang, s.rendues[p].rang, c, AwaitedSuccess(p));
  }

  lemma MovedCallKeeps(s: Sys, step: Step, c: nat)
    requires CanStep(s, step) && (step.Send? || step.Return? || step.EndPause?) && c == step.c && CallInv(s, c)
    ensures CallInv(Next(s, step), c)
  {
  }

  lemma NextGrows(s: Sys, step: Step)
    requires CanStep(s, step)
    ensures var s' := Next(s, step);
            && s.host.suivante <= s'.host.suivante && s.trace <= s'.trace
            && (forall p :: p in s.rendues ==> p in s'.rendues && s'.rendues[p] == s.rendues[p])
            && (forall p :: p in s'.rendues && p !in s.rendues ==> s'.rendues[p].rang >= |s.trace|)
  {
  }

  lemma OtherCalls(s: Sys, step: Step, c: nat)
    requires CanStep(s, step) && c in Next(s, step).calls
    requires (step.Begin? || step.Resume? || step.Send? || step.Return? || step.EndPause?) ==> step.c != c
    ensures c in s.calls && Next(s, step).calls[c] == s.calls[c]
  {
  }

  lemma NextKeepsCall(s: Sys, step: Step, c: nat)
    requires Inv(s) && Enabled(s, step) && c in Next(s, step).calls
    ensures CallInv(Next(s, step), c)
  {
    if step.Begin? && step.c == c {
      NewCallKeeps(s, step);
    } else if step.Resume? && step.c == c {
      ResumeKeeps(s, c);
    } else if (step.Send? || step.Return? || step.EndPause?) && step.c == c {
      MovedCallKeeps(s, step, c);
    } else {
      OtherCalls(s, step, c);
      NextGrows(s, step);
      StillCall(s, Next(s, step), c);
    }
  }

  /** The one event a step adds, if any. */
  function Added(s: Sys, step: Step): Option<Event>
    requires CanStep(s, step)
  {
    match step
    case Begin(c, get, delai, now) => Some(Called(c, get, delai, now, VueOf(s.host, now)))
    case End(outcome, now) => Some(HandshakeEnded(s.host.enCours.value, outcome, now))
    case Finally => Some(Freed(s.host.enCours.value))
    case Resume(c) =>
      (match s.rendues[s.calls[c].phase.poignee].outcome
      case Accepted => None
      case Unproved => Some(GivenUp(c, HoteNonVerifie))
      case Threw => Some(GivenUp(c, Exception)))
    case Send(c, now) => Some(SecretSent(c, 1, s.calls[c].permit.value, now))
    case Return(c, reply, now) => Some(Answered(c, reply, now, SuiteOf(s.calls[c], reply, now)))
    case EndPause(c, now) => Some(SecretSent(c, 2, s.calls[c].permit.value, now))
  }

  lemma NextTrace(s: Sys, step: Step)
    requires CanStep(s, step)
    ensures Next(s, step).trace == s.trace + if Added(s, step).Some? then [Added(s, step).value] else []
  {
  }

  /** How a step moves the host. */
  lemma NextHost(s: Sys, step: Step)
    requires HostInv(s) && CanStep(s, step)
    ensures var s' := Next(s, step);
            && s'.host.suivante == s.host.suivante + (if Starts(s, step) then 1 else 0)
            && Flying(s') == Flying(s) + (if Starts(s, step) then 1 else 0) - (if step.End? then 1 else 0)
            && Held(s') == Held(s) + (if Starts(s, step) then 1 else 0) - (if step.Finally? then 1 else 0)
            && LastProof(s') == if step.End? && step.outcome == Accepted then Some(Preuve(s.host.enCours.value, step.now)) else LastProof(s)
  {
  }

  predicate Starts(s: Sys, step: Step) {
    step.Begin? && VueOf(s.host, step.now).Demarre?
  }

  lemma AddedHost(s: Sys, step: Step)
    requires CanStep(s, step)
    ensures var e := Added(s, step);
            && (Starts(s, step) <==> e.Some? && e.value.Called? && e.value.vue.Demarre?)
            && (step.End? <==> e.Some? && e.value.HandshakeEnded?) && (step.Finally? <==> e.Some? && e.value.Freed?)
            && (step.End? ==> e.value == HandshakeEnded(s.host.enCours.value, step.outcome, step.now))
  {
  }

  lemma NextKeepsHostTraced(s: Sys, step: Step)
    requires Inv(s) && Enabled(s, step)
    ensures HostTraced(Next(s, step))
  {
    NextTrace(s, step);
    NextHost(s, step);
    AddedHost(s, step);
    if Added(s, step).Some? {
      AppendCounts(s.trace, Added(s, step).value);
    } else {
      assert s.trace + [] == s.trace;
    }
  }

  /** A step moves the tallies of the call it is about, as the event it adds says. */
  lemma NextTally(s: Sys, step: Step, c: nat)
    requires CanStep(s, step) && (c in s.calls ==> CallInv(s, c))
    ensures var s', e := Next(s, step), Added(s, step);
            && Attempts(s', c) == Attempts(s, c) + (if e.Some? && e.value.SecretSent? && e.value.call == c then 1 else 0)
            && Replies(s', c) == Replies(s, c) + (if e.Some? && e.value.Answered? && e.value.call == c then 1 else 0)
            && Ending(s', c) == if e.Some? && Ends(e.value, c).Some? then Ends(e.value, c) else Ending(s, c)
  {
    if Moves(step) && step.c == c {
      OwnTally(s, step, c);
    } else if c in s.calls {
      OtherTally(s, step, c);
    }
  }

  predicate Moves(step: Step) {
    step.Begin? || step.Resume? || step.Send? || step.Return? || step.EndPause?
  }

  lemma OwnTally(s: Sys, step: Step, c: nat)
    requires CanStep(s, step) && (c in s.calls ==> CallInv(s, c)) && Moves(step) && step.c == c
    ensures var s', e := Next(s, step), Added(s, step);
            && Attempts(s', c) == Attempts(s, c) + (if e.Some? && e.value.SecretSent? && e.value.call == c then 1 else 0)
            && Replies(s', c) == Replies(s, c) + (if e.Some? && e.value.Answered? && e.value.call == c then 1 else 0)
            && Ending(s', c) == if e.Some? && Ends(e.value, c).Some? then Ends(e.value, c) else Ending(s, c)
  {
  }

  lemma OtherTally(s: Sys, step: Step, c: nat)
    requires CanStep(s, step) && c in s.calls && (Moves(step) ==> step.c != c)
    ensures var s', e := Next(s, step), Added(s, step);
            && c in s'.calls && s'.calls[c] == s.calls[c]
            && (e.Some? ==> Ends(e.value, c).None? && !((e.value.SecretSent? || e.value.Answered?) && e.value.call == c))
  {
  }

  lemma NextKeepsTally(s: Sys, step: Step, c: nat)
    requires CanStep(s, step) && CallTraced(s, c) && (c in s.calls ==> CallInv(s, c))
    ensures CallTraced(Next(s, step), c)
  {
    NextTrace(s, step);
    NextTally(s, step, c);
    if Added(s, step).Some? {
      AppendCounts(s.trace, Added(s, step).value);
    } else {
      assert s.trace + [] == s.trace;
    }
  }

  lemma NextKeepsKnown(s: Sys, step: Step)
    requires CanStep(s, step) && CalledAreKnown(s)
    ensures CalledAreKnown(Next(s, step))
  {
    NextTrace(s, step);
    assert s.calls.Keys <= Next(s, step).calls.Keys;
  }

  lemma NextKeepsTrace(s: Sys, step: Step)
    requires Inv(s) && Enabled(s, step)
    ensures TraceInv(Next(s, step))
  {
    NextKeepsHostTraced(s, step);
    NextKeepsKnown(s, step);
    forall c: nat ensures CallTraced(Next(s, step), c) {
      assert CallTraced(s, c) && (c in s.calls ==> CallInv(s, c));
      NextKeepsTally(s, step, c);
    }
  }

  lemma NextKeepsInv(s: Sys, step: Step)
    requires Inv(s) && Enabled(s, step)
    ensures Inv(Next(s, step))
  {
    NextKeepsHost(s, step);
    NextKeepsFins(s, step);
    NextKeepsTrace(s, step);
    forall c | c in Next(s, step).calls ensures CallInv(Next(s, step), c) { NextKeepsCall(s, step, c); }
  }

  lemma AddedIsAllowed(s: Sys, step: Step)
    requires Inv(s) && Enabled(s, step) && Added(s, step).Some?
    ensures EventAllowed(s.trace + [Added(s, step).value], |s.trace|)
  {
    var e := Added(s, step).value;
    var trace := s.trace + [e];
    assert trace[..|s.trace|] == s.trace;
    match step
    case Begin(_, _, _, now) => SeenIsVue(s, now);
    case Resume(c) => assert CallInv(s, c) && CallTraced(s, c); GivingUpIsAllowed(s, c, trace);
    case Send(c, _) => assert CallInv(s, c) && CallTraced(s, c); SendIsAllowed(s, step, c, trace);
    case EndPause(c, _) => assert CallInv(s, c) && CallTraced(s, c); SendIsAllowed(s, step, c, trace);
    case Return(c, _, _) => assert CallInv(s, c) && CallTraced(s, c); AnswerIsAllowed(s, step, c, trace);
    case _ =>
  }

  /** The closure state holds of the past what a call needs: no more, no less. */
  lemma SeenIsVue(s: Sys, now: int)
    requires HostInv(s) && HostTraced(s) && now >= 0
    ensures Seen(s.trace, now) == VueOf(s.host, now)
  {
  }

  lemma SendIsAllowed(s: Sys, step: Step, c: nat, trace: seq<Event>)
    requires CanStep(s, step) && (step.Send? || step.EndPause?) && step.c == c && CallInv(s, c) && CallTraced(s, c)
    requires trace == s.trace + [Added(s, step).value]
    ensures EventAllowed(trace, |s.trace|)
  {
    var call, permit := s.calls[c], s.calls[c].permit.value;
    assert trace[..|s.trace|] == s.trace;
    assert Justified(trace, call.rang, s.rendues[permit.poignee].rang, c, permit);
  }

  lemma AnswerIsAllowed(s: Sys, step: Step, c: nat, trace: seq<Event>)
    requires CanStep(s, step) && step.Return? && step.c == c && CallInv(s, c) && CallTraced(s, c)
    requires trace == s.trace + [Added(s, step).value]
    ensures EventAllowed(trace, |s.trace|)
  {
    var call := s.calls[c];
    assert trace[..|s.trace|] == s.trace;
    assert trace[call.envoi] == s.trace[call.envoi] && trace[call.rang] == s.trace[call.rang];
    assert Follows(trace, call.rang, call.envoi, c, call.essai, step.reply, step.now, SuiteOf(call, step.reply, step.now));
  }

  lemma GivingUpIsAllowed(s: Sys, c: nat, trace: seq<Event>)
    requires FinsInv(s) && CanStep(s, Resume(c)) && CallInv(s, c) && CallTraced(s, c)
    requires Added(s, Resume(c)).Some? && trace == s.trace + [Added(s, Resume(c)).value]
    ensures EventAllowed(trace, |s.trace|)
  {
    var call, p := s.calls[c], s.calls[c].phase.poignee;
    var k := s.rendues[p].rang;
    assert trace[..|s.trace|] == s.trace;
    assert trace[k] == s.trace[k] && trace[call.rang] == s.trace[call.rang];
    assert LetDown(trace, call.rang, k, c, trace[|s.trace|].r);
  }

  // ------------------------------------------------------------------ over any interleaving

  ghost predicate Ready(s: Sys) {
    Inv(s) && TraceSafe(s.trace)
  }

  lemma NextReady(s: Sys, step: Step)
    requires Ready(s) && Enabled(s, step)
    ensures Ready(Next(s, step))
  {
    NextKeepsInv(s, step);
    NextTrace(s, step);
    if Added(s, step).Some? {
      AddedIsAllowed(s, step);
      AppendSafe(s.trace, Added(s, step).value);
    } else {
      assert s.trace + [] == s.trace;
    }
  }

  /** The state after a schedule; a step that is not enabled does not happen. */
  ghost function Run(s: Sys, schedule: seq<Step>): (r: Sys)
    requires Ready(s)
    ensures Ready(r)
    decreases |schedule|
  {
    if schedule == [] then s
    else if !Enabled(s, schedule[0]) then Run(s, schedule[1..])
    else
      NextReady(s, schedule[0]);
      Run(Next(s, schedule[0]), schedule[1..])
  }

  lemma StartIsReady()
    ensures Ready(START)
  {
  }

  // ------------------------------------------------------------------ what such a trace is

  /** The past of a trace counts no more than the whole. */
  lemma {:induction false} ReleasedGrows(trace: seq<Event>, i: nat, j: nat)
    requires i <= j <= |trace|
    ensures Released(trace[..i]) <= Released(trace[..j]) && Started(trace[..i]) <= Started(trace[..j])
    decreases j
  {
    if i < j {
      ReleasedGrows(trace, i, j - 1);
      assert trace[..j][..j - 1] == trace[..j - 1];
    }
  }

  /** Handshakes are numbered as they start, and freed in that order, each once. */
  lemma {:induction false} FreedInOrder(trace: seq<Event>, n: nat, p: nat)
    requires TraceSafe(trace) && n <= |trace|
    ensures p < Released(trace[..n]) <==> exists l :: 0 <= l < n && trace[l] == Freed(p)
  {
    if n > 0 {
      FreedInOrder(trace, n - 1, p);
      assert trace[..n][..n - 1] == trace[..n - 1];
      assert EventAllowed(trace, n - 1);
      if l :| 0 <= l < n - 1 && trace[l] == Freed(p) { assert trace[l] == Freed(p); }
    }
  }

  /** A call that joins a handshake comes before its place is freed. */
  lemma JoinedIsNotFreed(trace: seq<Event>, j: nat, l: nat, p: nat)
    requires TraceSafe(trace) && l < j < |trace| && trace[j].Called? && trace[j].vue == Rejoint(p)
    ensures trace[l] != Freed(p)
  {
    assert EventAllowed(trace, j);
    FreedInOrder(trace, j, p);
  }

  /** Of two handshakes started, the first ended and was freed before the second. */
  lemma OneAtATime(trace: seq<Event>, i: nat, j: nat, p: nat, q: nat)
    requires TraceSafe(trace) && i < j < |trace| && trace[i].Called? && trace[j].Called?
    requires trace[i].vue == Demarre(p) && trace[j].vue == Demarre(q)
    ensures p < q && exists l :: i < l < j && trace[l] == Freed(p)
  {
    assert EventAllowed(trace, i) && EventAllowed(trace, j);
    assert trace[..i + 1][..i] == trace[..i];
    ReleasedGrows(trace, i + 1, j);
    FreedInOrder(trace, j, p);
    var l :| 0 <= l < j && trace[l] == Freed(p);
    assert EventAllowed(trace, l);
    if l < i { ReleasedGrows(trace, l, i); }
  }

  /**
   Call `c` began at `j` and sends under handshake `p`, accepted at `k`: less than ten minutes old when the
   call began, or waited for by a call that began before its end, or before its place was freed.
   */
  ghost predicate Rests(trace: seq<Event>, j: nat, k: nat, c: nat, p: nat)
    requires j < |trace| && k < |trace|
  {
    && trace[j].Called? && trace[j].call == c
    && trace[k].HandshakeEnded? && trace[k].poignee == p && trace[k].outcome == Accepted
    && (|| (k < j && trace[j].at - trace[k].at < 600_000)
        || (Waits(trace[j].vue, p) && (j < k || forall l :: 0 <= l < j ==> trace[l] != Freed(p))))
  }

  /** No secret leaves under a proof that is neither recent nor the one its call waited for in time. */
  lemma SecretIsGrounded(trace: seq<Event>, i: nat)
    requires TraceSafe(trace) && i < |trace| && trace[i].SecretSent?
    ensures exists j, k :: 0 <= j < i && 0 <= k < i && Rests(trace, j, k, trace[i].call, trace[i].permit.poignee)
  {
    assert EventAllowed(trace, i);
    var p := trace[i].permit.poignee;
    var j, k :| 0 <= j < i && 0 <= k < i && Justified(trace, j, k, trace[i].call, trace[i].permit);
    assert EventAllowed(trace, j);
    if trace[j].vue == Rejoint(p) {
      forall l | 0 <= l < j ensures trace[l] != Freed(p) { JoinedIsNotFreed(trace, j, l, p); }
    } else if trace[j].vue == Demarre(p) && k < j {
      StartsBeforeItEnds(trace, j, k, p);
    }
    assert Rests(trace, j, k, trace[i].call, p);
  }

  lemma StartsBeforeItEnds(trace: seq<Event>, j: nat, k: nat, p: nat)
    requires TraceSafe(trace) && k < j < |trace| && trace[j].Called? && trace[j].vue == Demarre(p)
    ensures !(trace[k].HandshakeEnded? && trace[k].poignee == p)
  {
    assert EventAllowed(trace, j) && EventAllowed(trace, k);
    ReleasedGrows(trace, k, j);
  }

  /**
   A call that ended says what its last reply said, with its status; or it never sent, and says how the
   handshake it waited for ended.
   */
  lemma {:induction false} ResultIsGrounded(trace: seq<Event>, n: nat, c: nat)
    requires TraceSafe(trace) && n <= |trace|
    ensures Answers(trace[..n], c) <= Sends(trace[..n], c)
    ensures LastReply(trace[..n], c).None? <==> Answers(trace[..n], c) == 0
    ensures EndOf(trace[..n], c).Some? ==>
              var r := EndOf(trace[..n], c).value;
              if LastReply(trace[..n], c).Some? then Bears(r, LastReply(trace[..n], c).value)
              else Sends(trace[..n], c) == 0 && IsLetDown(trace, n, c, r)
  {
    if n > 0 {
      ResultIsGrounded(trace, n - 1, c);
      assert trace[..n][..n - 1] == trace[..n - 1];
      assert EventAllowed(trace, n - 1);
      var e := trace[n - 1];
      if e.GivenUp? && e.call == c {
        var j, k :| 0 <= j < n - 1 && 0 <= k < n - 1 && LetDown(trace, j, k, c, e.r);
      }
    }
  }

  ghost predicate IsLetDown(trace: seq<Event>, n: nat, c: nat, r: Resultat) {
    exists j, k :: 0 <= j < n && 0 <= k < n && LetDown(trace, j, k, c, r)
  }

  /**
   Whatever the interleaving: never two handshakes at once; the secret leaves only for a call that saw,
   when it began, a handshake accepted less than ten minutes before, or that waited for one that was
   accepted; a writing leaves once at most, a reading twice at most, and the second time only after a
   pause with two seconds of budget left; a call that is done ended in the trace with its result.
   */
  lemma EveryScheduleIsSafe(schedule: seq<Step>)
    ensures Ready(START)
    ensures var s := Run(START, schedule);
            && TraceSafe(s.trace)
            && Started(s.trace) <= Ended(s.trace) + 1
            && (forall c :: c in s.calls ==> Sends(s.trace, c) <= if s.calls[c].get then 2 else 1)
            && (forall c :: c in s.calls && s.calls[c].phase.Done? ==> EndOf(s.trace, c) == Some(s.calls[c].phase.r))
  {
    StartIsReady();
    var s := Run(START, schedule);
    forall c | c in s.calls
      ensures Sends(s.trace, c) <= if s.calls[c].get then 2 else 1
      ensures s.calls[c].phase.Done? ==> EndOf(s.trace, c) == Some(s.calls[c].phase.r)
    {
      assert CallInv(s, c) && CallTraced(s, c);
    }
  }
}
