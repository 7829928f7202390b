/** The passkey service and the handlers that mint sessions, as a concurrent system. Every
    request is a flight that advances in steps; the lock is held only within a step, so
    steps of different requests interleave freely. Java, the WebAuthn library and the
    random sources answer arbitrarily. */
module Provenance {
  import opened Wrappers
  import opened Text
  import opened Base64Url
  import opened Credentials
  import opened Clock
  import C = Ceremonies

  type RequestId = nat

  datatype Config = Config(ttl: int, localPairing: bool)

  datatype Route = RegisterRoute | SignupRoute

  /** What happened to a request, in the words of whoever said it: what the client submitted
      (the account or the pairing token), which ceremony it came to verify, by which route,
      what Java answered, and what was sent to Java. */
  datatype Fact =
    | Submitted(to: RequestId, text: string)
    | VerifiesLogin(to: RequestId, ceremony: string)
    | VerifiesReg(to: RequestId, ceremony: string, route: Route)
    | Listed(to: RequestId, account: string, credentials: seq<Credential>)
    | Refused(to: RequestId, account: string, message: string)
    | Claimed(to: RequestId, token: string, account: string)
    | Sent(to: RequestId, command: Command)
    | CounterAccepted(to: RequestId, account: string, credentialId: string)
    | CommandAccepted(to: RequestId, account: string, credentialId: string)

  /** Why a registration request may use its account. */
  datatype Evidence =
    | ByPairing(presented: string, claimed: string)
    | ByLocalToken(presented: string)
    | BySignup(requested: string, message: string)

  /** How the WebAuthn library reached its verdict. */
  datatype Proof =
    | ByAssertion(rawId: seq<Byte>)
    | ByHandle(rawId: seq<Byte>, handle: string, credentials: seq<Credential>)
    | ByAttestation(rawId: seq<Byte>)

  datatype Auth = Auth(account: string, credentialId: string, name: string, proof: Proof)

  datatype Flight =
    | DiscoverReady(asked: string)
    | LoginLookup(asked: string, account: string)
    | LoginReady(asked: string, account: string, credentials: seq<Credential>)
    | PairingAsked(presented: string, nameAsked: string)
    | RegLookup(account: string, name: string, evidence: Evidence)
    | SignupLookup(account: string, name: string, requested: string)
    | RegReady(account: string, name: string, evidence: Evidence)
    | LoginChecking(id: string, login: C.LoginCeremony)
    | HandleLookup(id: string, login: C.LoginCeremony, rawId: seq<Byte>, handle: string, account: string)
    | HandleResolved(id: string, login: C.LoginCeremony, rawId: seq<Byte>, handle: string, account: string,
                     credentials: seq<Credential>)
    | CounterPending(id: string, auth: Auth)
    | RegChecking(id: string, reg: C.RegCeremony, route: Route)
    | CommandPending(id: string, route: Route, auth: Auth)
    | Minting(id: string, auth: Auth)
  {
    /** A flight past the take holds its ceremony's id. */
    predicate Holds(x: string) {
      (LoginChecking? || HandleLookup? || HandleResolved? || CounterPending? || RegChecking?
       || CommandPending? || Minting?) && id == x
    }
  }

  datatype Origin =
    | LoginOrigin(rid: RequestId, asked: string, login: C.LoginCeremony)
    | RegOrigin(rid: RequestId, reg: C.RegCeremony, evidence: Evidence)

  datatype Command = Command(ceremony: string, signup: bool, account: string, name: string, credentialId: string)
  datatype Session = Session(sessionId: string, ceremony: string, minter: RequestId, auth: Auth)

  /** Besides the service's own state, the system remembers everything that happened:
      what was said, where each ceremony came from, which ids were consumed, which
      commands were sent and which sessions were minted, in order. */
  datatype System = System(
    clock: Time, pending: C.State, flights: map<RequestId, Flight>, next: RequestId,
    facts: set<Fact>, origins: map<string, Origin>,
    consumed: seq<string>, commands: seq<Command>, sessions: seq<Session>)

  datatype Action =
    | Tick(elapsed: nat)
    | StartLoginOptions(asked: string)
    | StartRegisterOptions(pairingToken: string, nameAsked: string)
    | StartSignupOptions(asked: string, nameAsked: string)
    | StartLoginVerify(id: string)
    | StartRegVerify(id: string, route: Route)
    | On(rid: RequestId, reply: Reply)

  /** What moves a flight on: an answer from Java or the WebAuthn library, a locked
      insertion of the handler's own, or any failure. */
  datatype Reply =
    | JavaLists(credentials: seq<Credential>)
    | JavaRefuses(message: string)
    | JavaClaims(account: string)
    | AddCeremony(id: string, between: nat)
    | AssertionAccepted(rawId: seq<Byte>)
    | HandlerCalled(rawId: seq<Byte>, handle: string)
    | AttestationAccepted(rawId: seq<Byte>)
    | JavaAccepts
    | Mint(sessionId: string)
    | Failure

  function Advance(s: System, rid: RequestId, f: Flight): System {
    s.(flights := s.flights[rid := f])
  }

  function Drop(s: System, rid: RequestId): System {
    s.(flights := s.flights - {rid})
  }

  function Launch(s: System, f: Flight): System {
    s.(flights := s.flights[s.next := f], next := s.next + 1)
  }

  /** A request that the client submitted some text with. */
  function Submit(s: System, text: string, f: Flight): System {
    Launch(s.(facts := s.facts + {Submitted(s.next, text)}), f)
  }

  function Hear(s: System, a: Fact): System {
    s.(facts := s.facts + {a})
  }

  const LOCAL_PREFIX := "account:"
  const UNKNOWN_ACCOUNT := "Unknown account."

  /** The account a local pairing token names, when that shortcut is enabled. */
  function LocalAccount(cfg: Config, token: string): Option<string> {
    if cfg.localPairing && LOCAL_PREFIX <= token then Some(TrimSpace(token[|LOCAL_PREFIX|..])) else None
  }

  function StartRegister(cfg: Config, s: System, pairingToken: string, nameAsked: string): System {
    var token := TrimSpace(pairingToken);
    if pairingToken == "" || nameAsked == "" || token == "" then s
    else match LocalAccount(cfg, token)
      case None => Submit(s, pairingToken, PairingAsked(pairingToken, nameAsked))
      case Some(account) =>
        var name := PasskeyLabel(nameAsked);
        if account == "" || name.None? then s
        else Submit(s, pairingToken, RegLookup(account, name.value, ByLocalToken(pairingToken)))
  }

  function StartSignup(s: System, asked: string, nameAsked: string): System {
    var account, name := SignupAccount(asked), PasskeyLabel(nameAsked);
    if asked == "" || nameAsked == "" || account.None? || name.None? then s
    else Submit(s, asked, SignupLookup(account.value, name.value, asked))
  }

  /** A lookup that Java answered with a list. */
  ghost function Heard(s: System, rid: RequestId, credentials: seq<Credential>): System
    requires rid in s.flights
  {
    match s.flights[rid]
    case LoginLookup(asked, account) =>
      var s' := Hear(s, Listed(rid, account, credentials));
      if credentials == [] then Drop(s', rid) else Advance(s', rid, LoginReady(asked, account, credentials))
    case RegLookup(account, name, evidence) =>
      Advance(Hear(s, Listed(rid, account, credentials)), rid, RegReady(account, name, evidence))
    case SignupLookup(account, _, _) =>
      Drop(Hear(s, Listed(rid, account, credentials)), rid)
    case HandleLookup(id, login, rawId, handle, account) =>
      var s' := Hear(s, Listed(rid, account, credentials));
      if ActiveMatch(credentials, rawId)
      then Advance(s', rid, HandleResolved(id, login, rawId, handle, account, credentials))
      else Drop(s', rid)
    case _ => s
  }

  /** A lookup that Java rejected with a message. */
  function RefusedBy(s: System, rid: RequestId, message: string): System
    requires rid in s.flights
  {
    match s.flights[rid]
    case SignupLookup(account, name, requested) =>
      var s' := Hear(s, Refused(rid, account, message));
      if TrimSpace(message) == "" || TrimSpace(message) == UNKNOWN_ACCOUNT
      then Advance(s', rid, RegReady(account, name, BySignup(requested, message)))
      else Drop(s', rid)
    case LoginLookup(_, account) => Drop(Hear(s, Refused(rid, account, message)), rid)
    case RegLookup(account, _, _) => Drop(Hear(s, Refused(rid, account, message)), rid)
    case HandleLookup(_, _, _, _, account) => Drop(Hear(s, Refused(rid, account, message)), rid)
    case _ => s
  }

  function ClaimedBy(s: System, rid: RequestId, claimed: string): System
    requires rid in s.flights
  {
    if !s.flights[rid].PairingAsked? then s
    else
      var f := s.flights[rid];
      var s' := Hear(s, Claimed(rid, TrimSpace(f.presented), claimed));
      var account, name := TrimSpace(claimed), PasskeyLabel(f.nameAsked);
      if account == "" || name.None? then Drop(s', rid)
      else Advance(s', rid, RegLookup(account, name.value, ByPairing(f.presented, claimed)))
  }

  /** The ceremony that a request is ready to begin, and where it comes from. */
  function ReadyToBegin(rid: RequestId, f: Flight, expiresAt: Time): Option<Origin> {
    match f
    case DiscoverReady(asked) => Some(LoginOrigin(rid, asked, C.LoginCeremony("", [], expiresAt, true)))
    case LoginReady(asked, account, credentials) =>
      Some(LoginOrigin(rid, asked, C.LoginCeremony(account, credentials, expiresAt, false)))
    case RegReady(account, name, evidence) =>
      Some(RegOrigin(rid, C.RegCeremony(account, name, expiresAt, evidence.BySignup?), evidence))
    case _ => None
  }

  function Placed(cfg: Config, p: C.State, id: string, o: Origin, pruneAt: Time, at: Time): C.State {
    match o
    case LoginOrigin(_, _, c) => C.LoginAdded(cfg.ttl, p, id, c, pruneAt, at)
    case RegOrigin(_, c, _) => C.RegAdded(cfg.ttl, p, id, c, pruneAt, at)
  }

  /** The locked insertion at the end of an options request; the clock may move between
      its two readings. */
  function Added(cfg: Config, s: System, rid: RequestId, id: string, between: nat): System
    requires rid in s.flights
  {
    var at := s.clock + between;
    var ready := ReadyToBegin(rid, s.flights[rid], at + cfg.ttl);
    if ready.None? then s else Begun(cfg, s, rid, id, ready.value, at)
  }

  function Begun(cfg: Config, s: System, rid: RequestId, id: string, o: Origin, at: Time): System {
    Drop(s.(clock := at, pending := Placed(cfg, s.pending, id, o, s.clock, at), origins := s.origins[id := o]), rid)
  }

  function TakeLogin(s: System, id: string): System {
    var (p, taken) := C.LoginTaken(s.pending, id, s.clock);
    if TrimSpace(id) == "" then s
    else if taken.None? then s.(pending := p)
    else
      Launch(s.(pending := p, consumed := s.consumed + [id], facts := s.facts + {VerifiesLogin(s.next, id)}),
             LoginChecking(id, taken.value))
  }

  function TakeReg(s: System, id: string, route: Route): System {
    var (p, taken) := C.RegTaken(s.pending, id, s.clock);
    if TrimSpace(id) == "" then s
    else if taken.None? then s.(pending := p)
    else
      Launch(s.(pending := p, consumed := s.consumed + [id], facts := s.facts + {VerifiesReg(s.next, id, route)}),
             RegChecking(id, taken.value, route))
  }

  /** The library only accepts an assertion made with one of the user's credentials. */
  ghost predicate Offers(credentials: seq<Credential>, rawId: seq<Byte>) {
    exists i :: 0 <= i < |BuiltFrom(credentials)| && BuiltFrom(credentials)[i].id == rawId
  }

  /** An account-named login accepts an assertion by one of the ceremony's credentials; a
      discoverable one accepts an assertion by the credential its user handler resolved. */
  ghost function Accepted(s: System, rid: RequestId, rawId: seq<Byte>): System
    requires rid in s.flights
  {
    match s.flights[rid]
    case LoginChecking(id, login) =>
      if login.discoverable || !Offers(login.credentials, rawId) then s
      else
        Advance(s, rid, CounterPending(id,
          Auth(login.account, Encode(rawId), LabelFor(login.credentials, Encode(rawId)), ByAssertion(rawId))))
    case HandleResolved(id, login, raw, handle, account, credentials) =>
      if raw != rawId || !Offers(credentials, rawId) then s
      else if TrimSpace(account) == "" then Drop(s, rid)
      else
        Advance(s, rid, CounterPending(id,
          Auth(TrimSpace(account), Encode(rawId), LabelFor(credentials, Encode(rawId)),
               ByHandle(rawId, handle, credentials))))
    case _ => s
  }

  function Handled(s: System, rid: RequestId, rawId: seq<Byte>, handle: string): System
    requires rid in s.flights
  {
    var f := s.flights[rid];
    if !f.LoginChecking? || !f.login.discoverable then s
    else match LoginAccount(handle)
      case None => Drop(s, rid)
      case Some(account) => Advance(s, rid, HandleLookup(f.id, f.login, rawId, handle, account))
  }

  function Send(s: System, rid: RequestId, command: Command): System {
    s.(commands := s.commands + [command], facts := s.facts + {Sent(rid, command)})
  }

  /** The library accepted the new credential: the command goes to Java at once, its kind
      decided by the ceremony. */
  function Attested(s: System, rid: RequestId, rawId: seq<Byte>): System
    requires rid in s.flights
  {
    match s.flights[rid]
    case RegChecking(id, reg, route) =>
      var auth := Auth(reg.account, Encode(rawId), reg.name, ByAttestation(rawId));
      var command := Command(id, reg.signup, reg.account, reg.name, Encode(rawId));
      Advance(Send(s, rid, command), rid, CommandPending(id, route, auth))
    case _ => s
  }

  /** Java confirmed a counter update or a command. Only a login and the signup route go
      on to mint a session. */
  function Confirmed(s: System, rid: RequestId): System
    requires rid in s.flights
  {
    match s.flights[rid]
    case CounterPending(id, auth) =>
      Advance(Hear(s, CounterAccepted(rid, auth.account, auth.credentialId)), rid, Minting(id, auth))
    case CommandPending(id, route, auth) =>
      var s' := Hear(s, CommandAccepted(rid, auth.account, auth.credentialId));
      if route.SignupRoute? then Advance(s', rid, Minting(id, auth)) else Drop(s', rid)
    case _ => s
  }

  function Minted(s: System, rid: RequestId, sessionId: string): System
    requires rid in s.flights
  {
    match s.flights[rid]
    case Minting(id, auth) => Drop(s.(sessions := s.sessions + [Session(sessionId, id, rid, auth)]), rid)
    case _ => s
  }

  /** One step; an action whose request is not in the right place changes nothing. */
  ghost function Step(cfg: Config, s: System, a: Action): System {
    match a
    case Tick(d) => s.(clock := s.clock + d)
    case StartLoginOptions(asked) =>
      var account := TrimSpace(asked);
      Submit(s, asked, if account == "" then DiscoverReady(asked) else LoginLookup(asked, account))
    case StartRegisterOptions(token, name) => StartRegister(cfg, s, token, name)
    case StartSignupOptions(asked, name) => StartSignup(s, asked, name)
    case StartLoginVerify(id) => TakeLogin(s, id)
    case StartRegVerify(id, route) => TakeReg(s, id, route)
    case On(rid, reply) => if rid in s.flights then Replied(cfg, s, rid, reply) else s
  }

  ghost function Replied(cfg: Config, s: System, rid: RequestId, reply: Reply): System
    requires rid in s.flights
  {
    match reply
    case JavaLists(credentials) => Heard(s, rid, credentials)
    case JavaRefuses(message) => RefusedBy(s, rid, message)
    case JavaClaims(account) => ClaimedBy(s, rid, account)
    case AddCeremony(id, between) => if id in s.origins then s else Added(cfg, s, rid, id, between)
    case AssertionAccepted(rawId) => Accepted(s, rid, rawId)
    case HandlerCalled(rawId, handle) => Handled(s, rid, rawId, handle)
    case AttestationAccepted(rawId) => Attested(s, rid, rawId)
    case JavaAccepts => Confirmed(s, rid)
    case Mint(sessionId) => Minted(s, rid, sessionId)
    case Failure => Drop(s, rid)
  }

  ghost function Exec(cfg: Config, clock: Time, actions: seq<Action>): System {
    if actions == [] then System(clock, C.EMPTY, map[], 0, {}, map[], [], [], [])
    else Step(cfg, Exec(cfg, clock, actions[..|actions| - 1]), actions[|actions| - 1])
  }

  // ----- where accounts come from

  /** The shortcut resolves a token only when it is enabled and the token names an account
      after the prefix. */
  lemma LocalAccountMeans(cfg: Config, token: string)
    ensures LocalAccount(cfg, token).Some? <==> cfg.localPairing && "account:" <= token
    ensures cfg.localPairing && "account:" <= token ==> LocalAccount(cfg, token) == Some(TrimSpace(token[8..]))
  {
  }

  /** The evidence entitles request `rid` to register a passkey for `account`, on what that
      request submitted. */
  ghost predicate Entitled(cfg: Config, facts: set<Fact>, rid: RequestId, account: string, e: Evidence) {
    && account != ""
    && match e
       case ByPairing(presented, claimed) =>
         && Submitted(rid, presented) in facts
         && !(cfg.localPairing && "account:" <= TrimSpace(presented))
         && Claimed(rid, TrimSpace(presented), claimed) in facts && account == TrimSpace(claimed)
       case ByLocalToken(presented) =>
         && Submitted(rid, presented) in facts
         && cfg.localPairing && "account:" <= TrimSpace(presented)
         && account == TrimSpace(TrimSpace(presented)[8..])
       case BySignup(requested, message) =>
         && Submitted(rid, requested) in facts
         && SignupAccount(requested) == Some(account)
         && Refused(rid, account, message) in facts
         && TrimSpace(message) in {"", "Unknown account."}
  }

  /** A login request that named an account may use what Java listed for it; one that named
      none starts a discoverable login. */
  ghost predicate LoginAsked(facts: set<Fact>, rid: RequestId, asked: string, c: C.LoginCeremony) {
    && Submitted(rid, asked) in facts
    && if TrimSpace(asked) == "" then c.discoverable
       else
         && !c.discoverable && c.account == TrimSpace(asked) && c.credentials != []
         && Listed(rid, c.account, c.credentials) in facts
  }

  ghost predicate OriginOk(cfg: Config, facts: set<Fact>, o: Origin) {
    match o
    case LoginOrigin(rid, asked, c) => LoginAsked(facts, rid, asked, c)
    case RegOrigin(rid, c, e) =>
      Entitled(cfg, facts, rid, c.account, e) && (c.signup <==> e.BySignup?)
  }

  /** The authentication follows from the ceremony in which request `rid` made it. */
  ghost predicate Follows(facts: set<Fact>, rid: RequestId, id: string, o: Origin, auth: Auth) {
    match o
    case LoginOrigin(_, _, c) =>
      && VerifiesLogin(rid, id) in facts
      && if c.discoverable
         then
           && auth.proof.ByHandle?
           && var p := auth.proof;
              && LoginAccount(p.handle) == Some(auth.account)
              && Listed(rid, auth.account, p.credentials) in facts
              && ActiveMatch(p.credentials, p.rawId)
              && auth.credentialId == Encode(p.rawId)
         else
           && auth.proof.ByAssertion?
           && auth.account == c.account
           && Offers(c.credentials, auth.proof.rawId)
           && auth.credentialId == Encode(auth.proof.rawId)
    case RegOrigin(_, c, _) =>
      && auth.proof.ByAttestation?
      && auth.account == c.account && auth.name == c.name
      && auth.credentialId == Encode(auth.proof.rawId)
      && Sent(rid, Command(id, c.signup, c.account, c.name, auth.credentialId)) in facts
  }

  /** Java has accepted what the request told it, and its route mints sessions. */
  ghost predicate MayMint(facts: set<Fact>, rid: RequestId, id: string, o: Origin, auth: Auth) {
    && Follows(facts, rid, id, o, auth)
    && if o.LoginOrigin? then CounterAccepted(rid, auth.account, auth.credentialId) in facts
       else
         && VerifiesReg(rid, id, SignupRoute) in facts
         && CommandAccepted(rid, auth.account, auth.credentialId) in facts
  }

  // ----- the invariant

  ghost predicate FlightOk(cfg: Config, facts: set<Fact>, origins: map<string, Origin>, rid: RequestId, f: Flight) {
    match f
    case DiscoverReady(asked) => Submitted(rid, asked) in facts && TrimSpace(asked) == ""
    case LoginLookup(asked, account) => Submitted(rid, asked) in facts && TrimSpace(asked) == account != ""
    case LoginReady(asked, account, credentials) =>
      && Submitted(rid, asked) in facts && TrimSpace(asked) == account != "" && credentials != []
      && Listed(rid, account, credentials) in facts
    case PairingAsked(presented, _) =>
      Submitted(rid, presented) in facts && !(cfg.localPairing && "account:" <= TrimSpace(presented))
    case RegLookup(account, _, e) => !e.BySignup? && Entitled(cfg, facts, rid, account, e)
    case SignupLookup(account, _, requested) =>
      Submitted(rid, requested) in facts && SignupAccount(requested) == Some(account)
    case RegReady(account, _, e) => Entitled(cfg, facts, rid, account, e)
    case LoginChecking(id, login) =>
      && id in origins && origins[id].LoginOrigin? && origins[id].login == login
      && VerifiesLogin(rid, id) in facts
    case HandleLookup(id, login, _, handle, account) =>
      && id in origins && origins[id].LoginOrigin? && origins[id].login == login && login.discoverable
      && VerifiesLogin(rid, id) in facts
      && LoginAccount(handle) == Some(account)
    case HandleResolved(id, login, rawId, handle, account, credentials) =>
      && id in origins && origins[id].LoginOrigin? && origins[id].login == login && login.discoverable
      && VerifiesLogin(rid, id) in facts
      && LoginAccount(handle) == Some(account)
      && Listed(rid, account, credentials) in facts && ActiveMatch(credentials, rawId)
    case CounterPending(id, auth) =>
      id in origins && origins[id].LoginOrigin? && Follows(facts, rid, id, origins[id], auth)
    case RegChecking(id, reg, route) =>
      && id in origins && origins[id].RegOrigin? && origins[id].reg == reg
      && VerifiesReg(rid, id, route) in facts
    case CommandPending(id, route, auth) =>
      && id in origins && origins[id].RegOrigin? && Follows(facts, rid, id, origins[id], auth)
      && VerifiesReg(rid, id, route) in facts
    case Minting(id, auth) => id in origins && MayMint(facts, rid, id, origins[id], auth)
  }

  ghost predicate FlightsOk(cfg: Config, s: System) {
    forall rid :: rid in s.flights ==>
      rid < s.next && FlightOk(cfg, s.facts, s.origins, rid, s.flights[rid])
  }

  ghost predicate OriginsOk(cfg: Config, s: System) {
    forall id :: id in s.origins ==> OriginOk(cfg, s.facts, s.origins[id])
  }

  ghost predicate PendingOk(s: System) {
    && (forall id :: id in s.pending.login ==>
          && id in s.origins && s.origins[id].LoginOrigin? && s.origins[id].login == s.pending.login[id]
          && id !in s.consumed)
    && (forall id :: id in s.pending.reg ==>
          && id in s.origins && s.origins[id].RegOrigin? && s.origins[id].reg == s.pending.reg[id]
          && id !in s.consumed)
  }

  /** Each consumed id is held by at most one flight, and nothing was minted yet for an id
      that a flight still holds. */
  ghost predicate HoldsOk(s: System) {
    && (forall rid, x :: rid in s.flights && s.flights[rid].Holds(x) ==>
          x in s.consumed && (forall i :: 0 <= i < |s.sessions| ==> s.sessions[i].ceremony != x))
    && (forall p, q, x :: p in s.flights && q in s.flights && p != q && s.flights[p].Holds(x) ==>
          !s.flights[q].Holds(x))
    && (forall rid :: rid in s.flights && s.flights[rid].RegChecking? ==>
          forall i :: 0 <= i < |s.commands| ==> s.commands[i].ceremony != s.flights[rid].id)
  }

  ghost predicate Distinct(ids: seq<string>) {
    forall i, j :: 0 <= i < j < |ids| ==> ids[i] != ids[j]
  }

  ghost predicate ConsumedOk(s: System) {
    Distinct(s.consumed) && forall i :: 0 <= i < |s.consumed| ==> s.consumed[i] in s.origins
  }

  ghost predicate CommandOk(s: System, c: Command) {
    && c.ceremony in s.consumed && c.ceremony in s.origins && s.origins[c.ceremony].RegOrigin?
    && var reg := s.origins[c.ceremony].reg;
       c.signup == reg.signup && c.account == reg.account && c.name == reg.name
  }

  ghost predicate CommandsOk(s: System) {
    && (forall i :: 0 <= i < |s.commands| ==> CommandOk(s, s.commands[i]))
    && (forall i, j :: 0 <= i < j < |s.commands| ==> s.commands[i].ceremony != s.commands[j].ceremony)
    && (forall rid, c :: Sent(rid, c) in s.facts ==> c in s.commands)
  }

  ghost predicate SessionOk(s: System, t: Session) {
    && t.ceremony in s.consumed && t.ceremony in s.origins
    && MayMint(s.facts, t.minter, t.ceremony, s.origins[t.ceremony], t.auth)
  }

  ghost predicate SessionsOk(s: System) {
    && (forall i :: 0 <= i < |s.sessions| ==> SessionOk(s, s.sessions[i]))
    && (forall i, j :: 0 <= i < j < |s.sessions| ==> s.sessions[i].ceremony != s.sessions[j].ceremony)
  }

  ghost predicate Inv(cfg: Config, s: System) {
    && FlightsOk(cfg, s) && OriginsOk(cfg, s) && PendingOk(s) && HoldsOk(s)
    && ConsumedOk(s) && CommandsOk(s) && SessionsOk(s)
  }

  // ----- every step keeps it

  lemma DropKeeps(cfg: Config, s: System, rid: RequestId)
    requires Inv(cfg, s)
    ensures Inv(cfg, Drop(s, rid))
  {
  }

  lemma EntitledGrows(cfg: Config, facts: set<Fact>, more: set<Fact>, rid: RequestId, account: string, e: Evidence)
    requires facts <= more
    ensures Entitled(cfg, facts, rid, account, e) ==> Entitled(cfg, more, rid, account, e)
  {
  }

  lemma FollowsGrows(facts: set<Fact>, more: set<Fact>, rid: RequestId, id: string, o: Origin, auth: Auth)
    requires facts <= more
    ensures Follows(facts, rid, id, o, auth) ==> Follows(more, rid, id, o, auth)
    ensures MayMint(facts, rid, id, o, auth) ==> MayMint(more, rid, id, o, auth)
  {
  }

  lemma FlightGrows(cfg: Config, facts: set<Fact>, more: set<Fact>, origins: map<string, Origin>, rid: RequestId, f: Flight)
    requires facts <= more && FlightOk(cfg, facts, origins, rid, f)
    ensures FlightOk(cfg, more, origins, rid, f)
  {
    if f.RegLookup? || f.RegReady? {
      EntitledGrows(cfg, facts, more, rid, f.account, f.evidence);
    } else if f.CounterPending? || f.CommandPending? || f.Minting? {
      FollowsGrows(facts, more, rid, f.id, origins[f.id], f.auth);
    }
  }

  /** What more is said or sent takes nothing back. */
  lemma GrowthKeeps(cfg: Config, s: System, t: System)
    requires FlightsOk(cfg, s) && OriginsOk(cfg, s) && SessionsOk(s)
    requires s.facts <= t.facts && t == s.(facts := t.facts, commands := t.commands)
    ensures FlightsOk(cfg, t) && OriginsOk(cfg, t) && SessionsOk(t)
  {
    forall rid | rid in t.flights ensures rid < t.next && FlightOk(cfg, t.facts, t.origins, rid, t.flights[rid]) {
      FlightGrows(cfg, s.facts, t.facts, s.origins, rid, s.flights[rid]);
    }
    forall id | id in t.origins ensures OriginOk(cfg, t.facts, t.origins[id]) {
      assert OriginOk(cfg, s.facts, s.origins[id]);
      if s.origins[id].RegOrigin? {
        EntitledGrows(cfg, s.facts, t.facts, s.origins[id].rid, s.origins[id].reg.account, s.origins[id].evidence);
      }
    }
    forall i | 0 <= i < |t.sessions| ensures SessionOk(t, t.sessions[i]) {
      var x := s.sessions[i];
      assert SessionOk(s, x);
      FollowsGrows(s.facts, t.facts, x.minter, x.ceremony, s.origins[x.ceremony], x.auth);
    }
  }

  lemma HearKeeps(cfg: Config, s: System, a: Fact)
    requires Inv(cfg, s) && !a.Sent?
    ensures Inv(cfg, Hear(s, a))
  {
    var t := Hear(s, a);
    GrowthKeeps(cfg, s, t);
    assert forall i :: 0 <= i < |s.commands| ==> CommandOk(s, s.commands[i]) && CommandOk(t, s.commands[i]);
    assert CommandsOk(t);
  }

  lemma LaunchKeeps(cfg: Config, s: System, f: Flight)
    requires Inv(cfg, s) && FlightOk(cfg, s.facts, s.origins, s.next, f)
    requires forall x :: !f.Holds(x)
    ensures Inv(cfg, Launch(s, f))
  {
  }

  lemma AdvanceKeeps(cfg: Config, s: System, rid: RequestId, f: Flight)
    requires Inv(cfg, s) && rid in s.flights && FlightOk(cfg, s.facts, s.origins, rid, f)
    requires forall x :: f.Holds(x) ==> s.flights[rid].Holds(x)
    requires !f.RegChecking?
    ensures Inv(cfg, Advance(s, rid, f))
  {
  }

  /** Commands and sessions stay in order when origins and consumed ids only grow. */
  lemma RecordsCarry(s: System, t: System)
    requires CommandsOk(s) && SessionsOk(s)
    requires t.commands == s.commands && t.sessions == s.sessions && t.facts == s.facts
    requires forall x :: x in s.origins ==> x in t.origins && t.origins[x] == s.origins[x]
    requires forall x :: x in s.consumed ==> x in t.consumed
    ensures CommandsOk(t) && SessionsOk(t)
  {
    forall i | 0 <= i < |t.commands| ensures CommandOk(t, t.commands[i]) { assert CommandOk(s, s.commands[i]); }
    forall i | 0 <= i < |t.sessions| ensures SessionOk(t, t.sessions[i]) { assert SessionOk(s, s.sessions[i]); }
  }

  lemma PlaceKeeps(cfg: Config, s: System, id: string, p: C.State, o: Origin, at: Time)
    requires Inv(cfg, s) && id !in s.origins && OriginOk(cfg, s.facts, o)
    requires PendingOk(s.(pending := p, origins := s.origins[id := o]))
    ensures Inv(cfg, s.(clock := at, pending := p, origins := s.origins[id := o]))
  {
    var t := s.(clock := at, pending := p, origins := s.origins[id := o]);
    RecordsCarry(s, t);
    PlacedFlights(cfg, s, t, id);
  }

  lemma PlacedFlights(cfg: Config, s: System, t: System, id: string)
    requires FlightsOk(cfg, s) && id !in s.origins
    requires t.flights == s.flights && t.next == s.next && t.facts == s.facts
    requires forall x :: x in s.origins ==> x in t.origins && t.origins[x] == s.origins[x]
    ensures FlightsOk(cfg, t)
  {
    forall rid | rid in t.flights ensures rid < t.next && FlightOk(cfg, t.facts, t.origins, rid, t.flights[rid]) {
      assert FlightOk(cfg, s.facts, s.origins, rid, s.flights[rid]);
    }
  }

  lemma FlightIsOk(cfg: Config, s: System, rid: RequestId)
    requires Inv(cfg, s) && rid in s.flights
    ensures FlightOk(cfg, s.facts, s.origins, rid, s.flights[rid])
  {
  }

  lemma ReadyOriginOk(cfg: Config, s: System, rid: RequestId, f: Flight, o: Origin, expiresAt: Time)
    requires FlightOk(cfg, s.facts, s.origins, rid, f) && ReadyToBegin(rid, f, expiresAt) == Some(o)
    ensures OriginOk(cfg, s.facts, o)
    ensures if o.LoginOrigin? then o.login.expiresAt == expiresAt else o.reg.expiresAt == expiresAt
  {
  }

  lemma PlacedOk(cfg: Config, s: System, id: string, o: Origin, at: Time)
    requires PendingOk(s) && id !in s.origins && id !in s.consumed
    requires if o.LoginOrigin? then o.login.expiresAt == at + cfg.ttl else o.reg.expiresAt == at + cfg.ttl
    ensures PendingOk(s.(pending := Placed(cfg, s.pending, id, o, s.clock, at), origins := s.origins[id := o]))
  {
    PendingStaysOk(s, id, Placed(cfg, s.pending, id, o, s.clock, at), o);
  }

  lemma BeginKeeps(cfg: Config, s: System, rid: RequestId, id: string, o: Origin, at: Time)
    requires Inv(cfg, s) && id !in s.origins && OriginOk(cfg, s.facts, o)
    requires if o.LoginOrigin? then o.login.expiresAt == at + cfg.ttl else o.reg.expiresAt == at + cfg.ttl
    ensures Inv(cfg, Begun(cfg, s, rid, id, o, at))
  {
    var p := Placed(cfg, s.pending, id, o, s.clock, at);
    PlacedOk(cfg, s, id, o, at);
    PlaceKeeps(cfg, s, id, p, o, at);
    DropKeeps(cfg, s.(clock := at, pending := p, origins := s.origins[id := o]), rid);
  }

  lemma ReadyIsOk(cfg: Config, s: System, rid: RequestId, f: Flight, o: Origin, expiresAt: Time)
    requires Inv(cfg, s) && rid in s.flights && s.flights[rid] == f && ReadyToBegin(rid, f, expiresAt) == Some(o)
    ensures OriginOk(cfg, s.facts, o)
    ensures if o.LoginOrigin? then o.login.expiresAt == expiresAt else o.reg.expiresAt == expiresAt
  {
    FlightIsOk(cfg, s, rid);
    ReadyOriginOk(cfg, s, rid, f, o, expiresAt);
  }

  lemma AddedIs(cfg: Config, s: System, rid: RequestId, id: string, between: nat, ready: Option<Origin>)
    requires rid in s.flights && ready == ReadyToBegin(rid, s.flights[rid], s.clock + between + cfg.ttl)
    ensures ready.None? ==> Added(cfg, s, rid, id, between) == s
    ensures ready.Some? ==> Added(cfg, s, rid, id, between) == Begun(cfg, s, rid, id, ready.value, s.clock + between)
  {
  }

  lemma ReadyKeeps(cfg: Config, s: System, rid: RequestId, id: string, at: Time, o: Origin)
    requires Inv(cfg, s) && rid in s.flights && id !in s.origins
    requires ReadyToBegin(rid, s.flights[rid], at + cfg.ttl) == Some(o)
    ensures Inv(cfg, Begun(cfg, s, rid, id, o, at))
  {
    ReadyIsOk(cfg, s, rid, s.flights[rid], o, at + cfg.ttl);
    BeginKeeps(cfg, s, rid, id, o, at);
  }

  lemma AddedKeeps(cfg: Config, s: System, rid: RequestId, id: string, between: nat, ready: Option<Origin>)
    requires Inv(cfg, s) && rid in s.flights && id !in s.origins
    requires ready == ReadyToBegin(rid, s.flights[rid], s.clock + between + cfg.ttl)
    ensures Inv(cfg, Added(cfg, s, rid, id, between))
  {
    AddedIs(cfg, s, rid, id, between, ready);
    if ready.Some? {
      ReadyKeeps(cfg, s, rid, id, s.clock + between, ready.value);
    }
  }

  /** Pending maps that hold nothing new but the ceremony just added. */
  lemma PendingStaysOk(s: System, id: string, p: C.State, o: Origin)
    requires PendingOk(s) && id !in s.origins && id !in s.consumed
    requires forall x :: x in p.login && x != id ==> x in s.pending.login && p.login[x] == s.pending.login[x]
    requires forall x :: x in p.reg && x != id ==> x in s.pending.reg && p.reg[x] == s.pending.reg[x]
    requires id in p.login ==> o.LoginOrigin? && o.login == p.login[id]
    requires id in p.reg ==> o.RegOrigin? && o.reg == p.reg[id]
    ensures PendingOk(s.(pending := p, origins := s.origins[id := o]))
  {
  }

  /** Taking a ceremony out of the pending maps consumes its id. */
  lemma ConsumeKeeps(cfg: Config, s: System, id: string, p: C.State, t: System)
    requires Inv(cfg, s) && id in s.origins && id !in s.consumed
    requires PendingOk(s.(pending := p)) && id !in p.login && id !in p.reg
    requires t == s.(pending := p, consumed := s.consumed + [id])
    ensures Inv(cfg, t)
    ensures forall rid :: rid in t.flights ==> !t.flights[rid].Holds(id)
    ensures forall i :: 0 <= i < |t.sessions| ==> t.sessions[i].ceremony != id
    ensures forall i :: 0 <= i < |t.commands| ==> t.commands[i].ceremony != id
  {
    RecordsCarry(s, t);
  }

  /** A new flight may hold a consumed id that nothing else has used. */
  lemma HolderKeeps(cfg: Config, s: System, id: string, f: Flight)
    requires Inv(cfg, s) && id in s.consumed && FlightOk(cfg, s.facts, s.origins, s.next, f)
    requires f.Holds(id) && forall x :: f.Holds(x) ==> x == id
    requires forall rid :: rid in s.flights ==> !s.flights[rid].Holds(id)
    requires forall i :: 0 <= i < |s.sessions| ==> s.sessions[i].ceremony != id
    requires forall i :: 0 <= i < |s.commands| ==> s.commands[i].ceremony != id
    ensures Inv(cfg, Launch(s, f))
  {
    assert HoldsOk(Launch(s, f));
  }

  lemma TakeKeeps(cfg: Config, s: System, id: string, p: C.State, f: Flight, t: System)
    requires Inv(cfg, s) && id in s.origins && id !in s.consumed
    requires FlightOk(cfg, s.facts, s.origins, s.next, f) && f.Holds(id) && forall x :: f.Holds(x) ==> x == id
    requires PendingOk(s.(pending := p)) && id !in p.login && id !in p.reg
    requires t == Launch(s.(pending := p, consumed := s.consumed + [id]), f)
    ensures Inv(cfg, t)
  {
    var u := s.(pending := p, consumed := s.consumed + [id]);
    ConsumeKeeps(cfg, s, id, p, u);
    HolderKeeps(cfg, u, id, f);
  }

  lemma TakeLoginKeeps(cfg: Config, s: System, id: string)
    requires Inv(cfg, s)
    ensures Inv(cfg, TakeLogin(s, id))
  {
    var (p, taken) := C.LoginTaken(s.pending, id, s.clock);
    if TrimSpace(id) != "" && taken.Some? {
      var u := Hear(s, VerifiesLogin(s.next, id));
      HearKeeps(cfg, s, VerifiesLogin(s.next, id));
      TakeKeeps(cfg, u, id, p, LoginChecking(id, taken.value), TakeLogin(s, id));
    }
  }

  lemma TakeRegKeeps(cfg: Config, s: System, id: string, route: Route)
    requires Inv(cfg, s)
    ensures Inv(cfg, TakeReg(s, id, route))
  {
    var (p, taken) := C.RegTaken(s.pending, id, s.clock);
    if TrimSpace(id) != "" && taken.Some? {
      var u := Hear(s, VerifiesReg(s.next, id, route));
      HearKeeps(cfg, s, VerifiesReg(s.next, id, route));
      TakeKeeps(cfg, u, id, p, RegChecking(id, taken.value, route), TakeReg(s, id, route));
    }
  }

  /** A flight that hears an answer and goes on. */
  lemma HearAdvanceKeeps(cfg: Config, s: System, rid: RequestId, a: Fact, g: Flight)
    requires Inv(cfg, s) && rid in s.flights && !a.Sent? && !g.RegChecking?
    requires FlightOk(cfg, s.facts + {a}, s.origins, rid, g)
    requires forall x :: g.Holds(x) ==> s.flights[rid].Holds(x)
    ensures Inv(cfg, Advance(Hear(s, a), rid, g))
  {
    HearKeeps(cfg, s, a);
    AdvanceKeeps(cfg, Hear(s, a), rid, g);
  }

  /** A flight that hears an answer and ends. */
  lemma HearDropKeeps(cfg: Config, s: System, rid: RequestId, a: Fact)
    requires Inv(cfg, s) && !a.Sent?
    ensures Inv(cfg, Drop(Hear(s, a), rid))
  {
    HearKeeps(cfg, s, a);
    DropKeeps(cfg, Hear(s, a), rid);
  }

  lemma HeardKeeps(cfg: Config, s: System, rid: RequestId, credentials: seq<Credential>)
    requires Inv(cfg, s) && rid in s.flights
    ensures Inv(cfg, Heard(s, rid, credentials))
  {
    var f := s.flights[rid];
    if f.LoginLookup? || f.RegLookup? || f.SignupLookup? || f.HandleLookup? {
      var a := Listed(rid, f.account, credentials);
      FlightIsOk(cfg, s, rid);
      FlightGrows(cfg, s.facts, s.facts + {a}, s.origins, rid, f);
      HearDropKeeps(cfg, s, rid, a);
      match f
      case LoginLookup(asked, account) =>
        if credentials != [] { HearAdvanceKeeps(cfg, s, rid, a, LoginReady(asked, account, credentials)); }
      case RegLookup(account, name, evidence) =>
        HearAdvanceKeeps(cfg, s, rid, a, RegReady(account, name, evidence));
      case HandleLookup(id, login, rawId, handle, account) =>
        if ActiveMatch(credentials, rawId) {
          HearAdvanceKeeps(cfg, s, rid, a, HandleResolved(id, login, rawId, handle, account, credentials));
        }
      case _ =>
    }
  }

  lemma RefusedKeeps(cfg: Config, s: System, rid: RequestId, message: string)
    requires Inv(cfg, s) && rid in s.flights
    ensures Inv(cfg, RefusedBy(s, rid, message))
  {
    var f := s.flights[rid];
    if f.LoginLookup? || f.RegLookup? || f.SignupLookup? || f.HandleLookup? {
      var a := Refused(rid, f.account, message);
      HearDropKeeps(cfg, s, rid, a);
      if f.SignupLookup? && TrimSpace(message) in {"", UNKNOWN_ACCOUNT} {
        FlightIsOk(cfg, s, rid);
        SignupAccepts(f.requested, f.account);
        HearAdvanceKeeps(cfg, s, rid, a, RegReady(f.account, f.name, BySignup(f.requested, message)));
      }
    }
  }

  lemma ClaimedKeeps(cfg: Config, s: System, rid: RequestId, claimed: string)
    requires Inv(cfg, s) && rid in s.flights
    ensures Inv(cfg, ClaimedBy(s, rid, claimed))
  {
    if s.flights[rid].PairingAsked? {
      var f := s.flights[rid];
      var a := Claimed(rid, TrimSpace(f.presented), claimed);
      HearDropKeeps(cfg, s, rid, a);
      var account, name := TrimSpace(claimed), PasskeyLabel(f.nameAsked);
      if account != "" && name.Some? {
        FlightIsOk(cfg, s, rid);
        HearAdvanceKeeps(cfg, s, rid, a, RegLookup(account, name.value, ByPairing(f.presented, claimed)));
      }
    }
  }

  lemma AcceptedKeeps(cfg: Config, s: System, rid: RequestId, rawId: seq<Byte>)
    requires Inv(cfg, s) && rid in s.flights
    ensures Inv(cfg, Accepted(s, rid, rawId))
  {
    if s.flights[rid].LoginChecking? {
      NamedAcceptedKeeps(cfg, s, rid, rawId);
    } else if s.flights[rid].HandleResolved? {
      ResolvedAcceptedKeeps(cfg, s, rid, rawId);
    }
  }

  lemma NamedAcceptedKeeps(cfg: Config, s: System, rid: RequestId, rawId: seq<Byte>)
    requires Inv(cfg, s) && rid in s.flights && s.flights[rid].LoginChecking?
    ensures Inv(cfg, Accepted(s, rid, rawId))
  {
    var f := s.flights[rid];
    if !f.login.discoverable && Offers(f.login.credentials, rawId) {
      FlightIsOk(cfg, s, rid);
      AdvanceKeeps(cfg, s, rid, CounterPending(f.id,
        Auth(f.login.account, Encode(rawId), LabelFor(f.login.credentials, Encode(rawId)), ByAssertion(rawId))));
    }
  }

  lemma ResolvedAcceptedKeeps(cfg: Config, s: System, rid: RequestId, rawId: seq<Byte>)
    requires Inv(cfg, s) && rid in s.flights && s.flights[rid].HandleResolved?
    ensures Inv(cfg, Accepted(s, rid, rawId))
  {
    var f := s.flights[rid];
    DropKeeps(cfg, s, rid);
    if f.rawId == rawId && Offers(f.credentials, rawId) {
      FlightIsOk(cfg, s, rid);
      LoginAccepts(f.handle, f.account);
      AdvanceKeeps(cfg, s, rid, CounterPending(f.id,
        Auth(TrimSpace(f.account), Encode(rawId), LabelFor(f.credentials, Encode(rawId)),
             ByHandle(rawId, f.handle, f.credentials))));
    }
  }

  lemma AttestedKeeps(cfg: Config, s: System, rid: RequestId, rawId: seq<Byte>)
    requires Inv(cfg, s) && rid in s.flights
    ensures Inv(cfg, Attested(s, rid, rawId))
  {
    if s.flights[rid].RegChecking? {
      var f := s.flights[rid];
      var c := Command(f.id, f.reg.signup, f.reg.account, f.reg.name, Encode(rawId));
      FlightIsOk(cfg, s, rid);
      AttestedIs(s, rid, rawId, f, c);
      SendKeeps(cfg, s, rid, c, CommandPending(f.id, f.route, AttestedAuth(c, rawId)));
    }
  }

  /** The authentication that a command stands for. */
  function AttestedAuth(c: Command, rawId: seq<Byte>): Auth {
    Auth(c.account, c.credentialId, c.name, ByAttestation(rawId))
  }

  lemma AttestedIs(s: System, rid: RequestId, rawId: seq<Byte>, f: Flight, c: Command)
    requires rid in s.flights && s.flights[rid] == f && f.RegChecking?
    requires c == Command(f.id, f.reg.signup, f.reg.account, f.reg.name, Encode(rawId))
    ensures Attested(s, rid, rawId) == Advance(Send(s, rid, c), rid, CommandPending(f.id, f.route, AttestedAuth(c, rawId)))
  {
  }

  /** A flight that sends its ceremony's command and goes on. */
  lemma SendKeeps(cfg: Config, s: System, rid: RequestId, c: Command, g: Flight)
    requires Inv(cfg, s) && rid in s.flights && s.flights[rid].RegChecking? && s.flights[rid].id == c.ceremony
    requires CommandOk(s, c)
    requires g.CommandPending? && g.id == c.ceremony
    requires FlightOk(cfg, s.facts + {Sent(rid, c)}, s.origins, rid, g)
    ensures Inv(cfg, Advance(Send(s, rid, c), rid, g))
  {
    var u := Drop(s, rid);
    DropKeeps(cfg, s, rid);
    DroppedIsFree(cfg, s, rid, c.ceremony);
    assert CommandOk(u, c);
    CommandKeeps(cfg, u, rid, c);
    RestoreKeeps(cfg, Send(u, rid, c), rid, c.ceremony, g);
    SendThenAdvance(s, rid, c, g);
  }

  lemma SendThenAdvance(s: System, rid: RequestId, c: Command, g: Flight)
    requires rid in s.flights
    ensures var v := Send(Drop(s, rid), rid, c);
            Advance(Send(s, rid, c), rid, g) == v.(flights := v.flights[rid := g])
  {
    assert (s.flights - {rid})[rid := g] == s.flights[rid := g];
  }

  /** A consumed id whose holder is gone is held by none, and no session has it. */
  lemma DroppedIsFree(cfg: Config, s: System, rid: RequestId, id: string)
    requires Inv(cfg, s) && rid in s.flights && s.flights[rid].Holds(id)
    ensures id in s.consumed
    ensures forall q :: q in Drop(s, rid).flights ==> !Drop(s, rid).flights[q].Holds(id)
    ensures forall i :: 0 <= i < |s.sessions| ==> s.sessions[i].ceremony != id
    ensures rid < s.next
    ensures s.flights[rid].RegChecking? ==> forall i :: 0 <= i < |s.commands| ==> s.commands[i].ceremony != id
  {
  }

  lemma CommandKeeps(cfg: Config, s: System, rid: RequestId, c: Command)
    requires Inv(cfg, s) && CommandOk(s, c)
    requires forall q :: q in s.flights ==> !s.flights[q].Holds(c.ceremony)
    requires forall i :: 0 <= i < |s.commands| ==> s.commands[i].ceremony != c.ceremony
    ensures Inv(cfg, Send(s, rid, c))
  {
    var t := Send(s, rid, c);
    GrowthKeeps(cfg, s, t);
    SentOk(s, rid, c);
    forall q | q in t.flights && t.flights[q].RegChecking?
      ensures forall i :: 0 <= i < |t.commands| ==> t.commands[i].ceremony != t.flights[q].id
    {
      assert s.flights[q].Holds(s.flights[q].id);
    }
    assert HoldsOk(t);
  }

  lemma SentOk(s: System, rid: RequestId, c: Command)
    requires CommandsOk(s) && CommandOk(s, c)
    requires forall i :: 0 <= i < |s.commands| ==> s.commands[i].ceremony != c.ceremony
    ensures CommandsOk(Send(s, rid, c))
  {
    var t := Send(s, rid, c);
    assert forall i :: 0 <= i < |s.commands| ==> CommandOk(s, s.commands[i]) && CommandOk(t, s.commands[i]);
    assert CommandOk(t, c);
    assert forall x :: x in s.commands ==> x in t.commands;
    assert t.commands[|s.commands|] == c;
  }

  lemma RestoreHolds(s: System, rid: RequestId, id: string, f: Flight)
    requires HoldsOk(s) && rid !in s.flights && f.Holds(id) && !f.RegChecking?
    requires id in s.consumed && forall q :: q in s.flights ==> !s.flights[q].Holds(id)
    requires forall i :: 0 <= i < |s.sessions| ==> s.sessions[i].ceremony != id
    requires forall x :: f.Holds(x) ==> x == id
    ensures HoldsOk(s.(flights := s.flights[rid := f]))
  {
  }

  /** A flight that takes a consumed id over from one that is gone. */
  lemma RestoreKeeps(cfg: Config, s: System, rid: RequestId, id: string, f: Flight)
    requires Inv(cfg, s) && rid !in s.flights && rid < s.next
    requires FlightOk(cfg, s.facts, s.origins, rid, f) && f.Holds(id) && !f.RegChecking?
    requires id in s.consumed && forall q :: q in s.flights ==> !s.flights[q].Holds(id)
    requires forall i :: 0 <= i < |s.sessions| ==> s.sessions[i].ceremony != id
    requires forall x :: f.Holds(x) ==> x == id
    ensures Inv(cfg, s.(flights := s.flights[rid := f]))
  {
    var t := s.(flights := s.flights[rid := f]);
    RecordsCarry(s, t);
    RestoreHolds(s, rid, id, f);
    assert FlightsOk(cfg, t);
  }

  lemma SessionKeeps(cfg: Config, s: System, t: Session, s': System)
    requires Inv(cfg, s) && SessionOk(s, t) && s' == s.(sessions := s.sessions + [t])
    requires forall i :: 0 <= i < |s.sessions| ==> s.sessions[i].ceremony != t.ceremony
    requires forall rid :: rid in s.flights ==> !s.flights[rid].Holds(t.ceremony)
    ensures Inv(cfg, s')
  {
    assert forall i :: 0 <= i < |s.sessions| ==> SessionOk(s, s.sessions[i]) && SessionOk(s', s.sessions[i]);
    assert forall i :: 0 <= i < |s.commands| ==> CommandOk(s, s.commands[i]) && CommandOk(s', s.commands[i]);
    assert SessionsOk(s');
    assert HoldsOk(s');
  }

  lemma MintedKeeps(cfg: Config, s: System, rid: RequestId, sessionId: string, s': System)
    requires Inv(cfg, s) && rid in s.flights && s' == Minted(s, rid, sessionId)
    ensures Inv(cfg, s')
  {
    if s.flights[rid].Minting? {
      var f := s.flights[rid];
      var u := Drop(s, rid);
      FlightIsOk(cfg, s, rid);
      assert f.Holds(f.id);
      assert SessionOk(u, Session(sessionId, f.id, rid, f.auth));
      DropKeeps(cfg, s, rid);
      SessionKeeps(cfg, u, Session(sessionId, f.id, rid, f.auth), s');
    }
  }

  lemma StartKeeps(cfg: Config, s: System, a: Action)
    requires Inv(cfg, s)
    requires a.StartLoginOptions? || a.StartRegisterOptions? || a.StartSignupOptions?
    ensures Inv(cfg, Step(cfg, s, a))
  {
    match a
    case StartLoginOptions(asked) =>
      var account := TrimSpace(asked);
      SubmitKeeps(cfg, s, asked, if account == "" then DiscoverReady(asked) else LoginLookup(asked, account));
    case StartRegisterOptions(pairingToken, nameAsked) =>
      var token := TrimSpace(pairingToken);
      LocalAccountMeans(cfg, token);
      var local, name := LocalAccount(cfg, token), PasskeyLabel(nameAsked);
      if local.None? {
        SubmitKeeps(cfg, s, pairingToken, PairingAsked(pairingToken, nameAsked));
      } else if local.value != "" && name.Some? {
        SubmitKeeps(cfg, s, pairingToken, RegLookup(local.value, name.value, ByLocalToken(pairingToken)));
      }
    case StartSignupOptions(asked, nameAsked) =>
      var account, name := SignupAccount(asked), PasskeyLabel(nameAsked);
      if account.Some? && name.Some? {
        SubmitKeeps(cfg, s, asked, SignupLookup(account.value, name.value, asked));
      }
  }

  lemma SubmitKeeps(cfg: Config, s: System, text: string, f: Flight)
    requires Inv(cfg, s) && FlightOk(cfg, s.facts + {Submitted(s.next, text)}, s.origins, s.next, f)
    requires forall x :: !f.Holds(x)
    ensures Inv(cfg, Submit(s, text, f))
  {
    HearKeeps(cfg, s, Submitted(s.next, text));
    LaunchKeeps(cfg, Hear(s, Submitted(s.next, text)), f);
  }

  lemma StepKeepsInv(cfg: Config, s: System, a: Action)
    requires Inv(cfg, s)
    ensures Inv(cfg, Step(cfg, s, a))
  {
    match a
    case Tick(d) =>
    case StartLoginOptions(_) => StartKeeps(cfg, s, a);
    case StartRegisterOptions(_, _) => StartKeeps(cfg, s, a);
    case StartSignupOptions(_, _) => StartKeeps(cfg, s, a);
    case StartLoginVerify(id) => TakeLoginKeeps(cfg, s, id);
    case StartRegVerify(id, route) => TakeRegKeeps(cfg, s, id, route);
    case On(rid, reply) => if rid in s.flights { RepliedKeeps(cfg, s, rid, reply); }
  }

  lemma RepliedKeeps(cfg: Config, s: System, rid: RequestId, reply: Reply)
    requires Inv(cfg, s) && rid in s.flights
    ensures Inv(cfg, Replied(cfg, s, rid, reply))
  {
    match reply
    case JavaLists(credentials) => HeardKeeps(cfg, s, rid, credentials);
    case JavaRefuses(message) => RefusedKeeps(cfg, s, rid, message);
    case JavaClaims(account) => ClaimedKeeps(cfg, s, rid, account);
    case AddCeremony(id, between) =>
      if id !in s.origins {
        AddedKeeps(cfg, s, rid, id, between, ReadyToBegin(rid, s.flights[rid], s.clock + between + cfg.ttl));
      }
    case AssertionAccepted(rawId) => AcceptedKeeps(cfg, s, rid, rawId);
    case HandlerCalled(rawId, handle) => HandledKeeps(cfg, s, rid, rawId, handle);
    case AttestationAccepted(rawId) => AttestedKeeps(cfg, s, rid, rawId);
    case JavaAccepts => ConfirmedKeeps(cfg, s, rid);
    case Mint(sessionId) => MintedKeeps(cfg, s, rid, sessionId, Minted(s, rid, sessionId));
    case Failure => DropKeeps(cfg, s, rid);
  }

  lemma HandledKeeps(cfg: Config, s: System, rid: RequestId, rawId: seq<Byte>, handle: string)
    requires Inv(cfg, s) && rid in s.flights
    ensures Inv(cfg, Handled(s, rid, rawId, handle))
  {
    DropKeeps(cfg, s, rid);
    var f := s.flights[rid];
    if f.LoginChecking? && f.login.discoverable && LoginAccount(handle).Some? {
      AdvanceKeeps(cfg, s, rid, HandleLookup(f.id, f.login, rawId, handle, LoginAccount(handle).value));
    }
  }

  lemma ConfirmedKeeps(cfg: Config, s: System, rid: RequestId)
    requires Inv(cfg, s) && rid in s.flights
    ensures Inv(cfg, Confirmed(s, rid))
  {
    var f := s.flights[rid];
    if f.CounterPending? || f.CommandPending? {
      var a := if f.CounterPending? then CounterAccepted(rid, f.auth.account, f.auth.credentialId)
               else CommandAccepted(rid, f.auth.account, f.auth.credentialId);
      HearDropKeeps(cfg, s, rid, a);
      if f.CounterPending? || f.route.SignupRoute? {
        FlightIsOk(cfg, s, rid);
        FlightGrows(cfg, s.facts, s.facts + {a}, s.origins, rid, f);
        HearAdvanceKeeps(cfg, s, rid, a, Minting(f.id, f.auth));
      }
    }
  }

  lemma {:induction false} ExecKeepsInv(cfg: Config, clock: Time, actions: seq<Action>)
    ensures Inv(cfg, Exec(cfg, clock, actions))
  {
    if actions != [] {
      ExecKeepsInv(cfg, clock, actions[..|actions| - 1]);
      StepKeepsInv(cfg, Exec(cfg, clock, actions[..|actions| - 1]), actions[|actions| - 1]);
    }
  }

  // ----- main results

  /** No ceremony id is ever consumed twice, whatever became of the first attempt, and the
      sessions minted map one-to-one into the consumed ids. */
  lemma {:induction false} SessionsAreInjective(cfg: Config, clock: Time, actions: seq<Action>)
    ensures var s := Exec(cfg, clock, actions);
            && Distinct(s.consumed)
            && (forall i :: 0 <= i < |s.sessions| ==> s.sessions[i].ceremony in s.consumed)
            && (forall i, j :: 0 <= i < j < |s.sessions| ==> s.sessions[i].ceremony != s.sessions[j].ceremony)
  {
    ExecKeepsInv(cfg, clock, actions);
    var s := Exec(cfg, clock, actions);
    assert forall i :: 0 <= i < |s.sessions| ==> SessionOk(s, s.sessions[i]);
  }

  /** Where every session comes from. The request that minted it is the one that took its
      ceremony, and Java had accepted what that request told it: the counter of a login, or
      the command of a registration, which only the signup route follows with a session. The
      account is the ceremony's: the one a login request named and Java listed the
      credential for; or, in a discoverable login, that of a user handle for which Java
      listed the session's own credential as active; or the one a registration request was
      entitled to. */
  lemma {:induction false} SessionProvenance(cfg: Config, clock: Time, actions: seq<Action>, k: nat)
    requires k < |Exec(cfg, clock, actions).sessions|
    ensures var s := Exec(cfg, clock, actions);
            var t := s.sessions[k];
            && t.ceremony in s.origins
            && match s.origins[t.ceremony]
               case RegOrigin(rid, c, e) =>
                 && t.auth.account == c.account && Entitled(cfg, s.facts, rid, c.account, e)
                 && VerifiesReg(t.minter, t.ceremony, SignupRoute) in s.facts
                 && CommandAccepted(t.minter, t.auth.account, t.auth.credentialId) in s.facts
                 && Command(t.ceremony, c.signup, c.account, c.name, t.auth.credentialId) in s.commands
               case LoginOrigin(rid, asked, c) =>
                 && Submitted(rid, asked) in s.facts
                 && VerifiesLogin(t.minter, t.ceremony) in s.facts
                 && CounterAccepted(t.minter, t.auth.account, t.auth.credentialId) in s.facts
                 && if TrimSpace(asked) != "" then
                      && t.auth.account == TrimSpace(asked)
                      && Listed(rid, t.auth.account, c.credentials) in s.facts
                      && ListsCredential(c.credentials, t.auth.credentialId)
                    else
                      && t.auth.proof.ByHandle?
                      && var p := t.auth.proof;
                         && LoginAccount(p.handle) == Some(t.auth.account)
                         && Listed(t.minter, t.auth.account, p.credentials) in s.facts
                         && ListsActive(p.credentials, t.auth.credentialId)
  {
    ExecKeepsInv(cfg, clock, actions);
    var s := Exec(cfg, clock, actions);
    var t := s.sessions[k];
    assert SessionOk(s, t) && OriginOk(cfg, s.facts, s.origins[t.ceremony]);
    match s.origins[t.ceremony]
    case RegOrigin(_, _, _) =>
    case LoginOrigin(rid, asked, c) =>
      if c.discoverable {
        ActiveIsListed(t.auth.proof.credentials, t.auth.proof.rawId);
      } else {
        OfferedIsListed(c.credentials, t.auth.proof.rawId);
      }
  }

  /** Some record, decoded and encoded again, has this id. */
  ghost predicate ListsCredential(credentials: seq<Credential>, id: string) {
    exists i :: 0 <= i < |credentials|
      && Decode(credentials[i].credentialId).Some? && id == Encode(Decode(credentials[i].credentialId).value)
  }

  ghost predicate ListsActive(credentials: seq<Credential>, id: string) {
    exists i :: 0 <= i < |credentials| && credentials[i].active && credentials[i].credentialId == id
  }

  lemma {:induction false} OfferedIsListed(credentials: seq<Credential>, rawId: seq<Byte>)
    requires Offers(credentials, rawId)
    ensures ListsCredential(credentials, Encode(rawId))
  {
    var j :| 0 <= j < |BuiltFrom(credentials)| && BuiltFrom(credentials)[j].id == rawId;
    var i := BuiltHasSource(credentials, j);
  }

  lemma {:induction false} ActiveIsListed(credentials: seq<Credential>, rawId: seq<Byte>)
    requires ActiveMatch(credentials, rawId)
    ensures ListsActive(credentials, Encode(rawId))
  {
  }

  /** Every command sent to Java comes from its own consumed ceremony, which sends no
      other, and its kind is the ceremony's, whichever route asked. A signup command is for
      the name its request asked for, one that signup accepts and that Java had refused to
      look up, with no message or as unknown. Any other is for the account that Java, or
      the local shortcut when it is enabled and the token is one of its own, resolved the
      request's own pairing token to. */
  lemma {:induction false} CommandProvenance(cfg: Config, clock: Time, actions: seq<Action>, k: nat)
    requires k < |Exec(cfg, clock, actions).commands|
    ensures var s := Exec(cfg, clock, actions);
            var c := s.commands[k];
            && c.ceremony in s.consumed
            && (forall j :: 0 <= j < |s.commands| && j != k ==> s.commands[j].ceremony != c.ceremony)
            && c.ceremony in s.origins && s.origins[c.ceremony].RegOrigin?
            && var o := s.origins[c.ceremony];
               && c.account == o.reg.account && c.account != "" && c.signup == o.reg.signup
               && match o.evidence
                  case BySignup(requested, message) =>
                    && c.signup
                    && Submitted(o.rid, requested) in s.facts && SignupAccount(requested) == Some(c.account)
                    && Refused(o.rid, c.account, message) in s.facts
                    && TrimSpace(message) in {"", "Unknown account."}
                  case ByPairing(presented, claimed) =>
                    && !c.signup
                    && Submitted(o.rid, presented) in s.facts
                    && !(cfg.localPairing && "account:" <= TrimSpace(presented))
                    && Claimed(o.rid, TrimSpace(presented), claimed) in s.facts && c.account == TrimSpace(claimed)
                  case ByLocalToken(presented) =>
                    && !c.signup
                    && Submitted(o.rid, presented) in s.facts
                    && cfg.localPairing && "account:" <= TrimSpace(presented)
                    && c.account == TrimSpace(TrimSpace(presented)[8..])
  {
    ExecKeepsInv(cfg, clock, actions);
    var s := Exec(cfg, clock, actions);
    assert CommandOk(s, s.commands[k]) && OriginOk(cfg, s.facts, s.origins[s.commands[k].ceremony]);
  }

  /** The facts that begin a request. */
  predicate Begins(f: Fact) {
    f.Submitted? || f.VerifiesLogin? || f.VerifiesReg?
  }

  ghost predicate BegunOnce(s: System) {
    && (forall f :: f in s.facts && Begins(f) ==> f.to < s.next)
    && (forall f, g :: f in s.facts && g in s.facts && Begins(f) && Begins(g) && f.to == g.to ==> f == g)
  }

  /** A request under way begins no other. */
  lemma ReplyBeginsNone(cfg: Config, s: System, rid: RequestId, reply: Reply)
    requires rid in s.flights
    ensures var s' := Replied(cfg, s, rid, reply);
            s'.next == s.next && forall f :: f in s'.facts && Begins(f) ==> f in s.facts
  {
  }

  /** A step begins at most one request, with a new number. */
  ghost predicate BeginsAtMostOne(s: System, s': System) {
    || (s'.next == s.next && forall f :: f in s'.facts && Begins(f) ==> f in s.facts)
    || (s'.next == s.next + 1 && exists b: Fact :: b.to == s.next && s'.facts == s.facts + {b})
  }

  lemma StepBeginsAtMostOne(cfg: Config, s: System, a: Action)
    ensures BeginsAtMostOne(s, Step(cfg, s, a))
  {
    match a
    case StartLoginOptions(asked) => assert Submitted(s.next, asked).to == s.next;
    case StartRegisterOptions(token, _) => assert Submitted(s.next, token).to == s.next;
    case StartSignupOptions(asked, _) => assert Submitted(s.next, asked).to == s.next;
    case StartLoginVerify(id) => assert VerifiesLogin(s.next, id).to == s.next;
    case StartRegVerify(id, route) => assert VerifiesReg(s.next, id, route).to == s.next;
    case On(rid, reply) => if rid in s.flights { ReplyBeginsNone(cfg, s, rid, reply); }
    case Tick(_) =>
  }

  /** A request has one beginning: one thing submitted, or one ceremony to verify. So what
      the facts say a request submitted is all that it submitted. */
  lemma {:induction false} RequestsBeginOnce(cfg: Config, clock: Time, actions: seq<Action>)
    ensures BegunOnce(Exec(cfg, clock, actions))
  {
    if actions != [] {
      var n := |actions| - 1;
      RequestsBeginOnce(cfg, clock, actions[..n]);
      StepBeginsAtMostOne(cfg, Exec(cfg, clock, actions[..n]), actions[n]);
    }
  }

  // ----- what the answers lead to

  ghost function Steps(cfg: Config, s: System, actions: seq<Action>): System
    decreases |actions|
  {
    if actions == [] then s else Steps(cfg, Step(cfg, s, actions[0]), actions[1..])
  }

  lemma StepsCons(cfg: Config, s: System, a: Action, more: seq<Action>)
    ensures Steps(cfg, s, [a] + more) == Steps(cfg, Step(cfg, s, a), more)
  {
    assert ([a] + more)[1..] == more;
  }

  lemma {:induction false} MintEnds(cfg: Config, s: System, rid: RequestId, f: Flight, sessionId: string)
    requires rid in s.flights && s.flights[rid] == f
    ensures var s' := Steps(cfg, s, [On(rid, Mint(sessionId))]);
            && s'.commands == s.commands
            && s'.sessions == s.sessions + if f.Minting? then [Session(sessionId, f.id, rid, f.auth)] else []
  {
    StepsCons(cfg, s, On(rid, Mint(sessionId)), []);
    assert [On(rid, Mint(sessionId))] + [] == [On(rid, Mint(sessionId))];
  }

  /** An action on a request that is over changes nothing. */
  lemma OverIsOver(cfg: Config, s: System, rid: RequestId, actions: seq<Action>)
    requires rid !in s.flights && forall i :: 0 <= i < |actions| ==> actions[i].On? && actions[i].rid == rid
    ensures Steps(cfg, s, actions) == s
  {
  }

  /** Once Java confirms, a login or a signup flight mints its session; a registration by
      the other route ends. */
  lemma {:induction false} AcceptEnds(cfg: Config, s: System, rid: RequestId, f: Flight, sessionId: string)
    requires rid in s.flights && s.flights[rid] == f && (f.CounterPending? || f.CommandPending?)
    ensures var s' := Steps(cfg, s, [On(rid, JavaAccepts), On(rid, Mint(sessionId))]);
            && s'.commands == s.commands
            && s'.sessions == s.sessions +
               if f.CounterPending? || f.route.SignupRoute? then [Session(sessionId, f.id, rid, f.auth)] else []
  {
    StepsCons(cfg, s, On(rid, JavaAccepts), [On(rid, Mint(sessionId))]);
    assert [On(rid, JavaAccepts)] + [On(rid, Mint(sessionId))] == [On(rid, JavaAccepts), On(rid, Mint(sessionId))];
    var t := Step(cfg, s, On(rid, JavaAccepts));
    if f.CounterPending? || f.route.SignupRoute? {
      MintEnds(cfg, t, rid, Minting(f.id, f.auth), sessionId);
    } else {
      OverIsOver(cfg, t, rid, [On(rid, Mint(sessionId))]);
    }
  }

  // ----- how ceremonies begin

  /** The last step of an options request. */
  lemma {:induction false} AddEnds(cfg: Config, s: System, rid: RequestId, f: Flight, id: string, between: nat)
    requires rid in s.flights && s.flights[rid] == f && id !in s.origins
    ensures var ready := ReadyToBegin(rid, f, s.clock + between + cfg.ttl);
            Steps(cfg, s, [On(rid, AddCeremony(id, between))]).pending ==
            if ready.None? then s.pending
            else Placed(cfg, s.pending, id, ready.value, s.clock, s.clock + between)
  {
    StepsCons(cfg, s, On(rid, AddCeremony(id, between)), []);
    assert [On(rid, AddCeremony(id, between))] + [] == [On(rid, AddCeremony(id, between))];
  }

  /** After Java's last answer, the ceremony is added. */
  lemma {:induction false} ReplyThenAdd(
      cfg: Config, s: System, rid: RequestId, reply: Reply, t: System, id: string, between: nat)
    requires t == Step(cfg, s, On(rid, reply))
    ensures Steps(cfg, s, [On(rid, reply), On(rid, AddCeremony(id, between))]) ==
            Steps(cfg, t, [On(rid, AddCeremony(id, between))])
  {
    StepsCons(cfg, s, On(rid, reply), [On(rid, AddCeremony(id, between))]);
    assert [On(rid, reply)] + [On(rid, AddCeremony(id, between))] == [On(rid, reply), On(rid, AddCeremony(id, between))];
  }

  ghost predicate LoginBegun(s: System, id: string, account: string, credentials: seq<Credential>, expiresAt: Time,
                             discoverable: bool)
  {
    id in s.pending.login && s.pending.login[id] == C.LoginCeremony(account, credentials, expiresAt, discoverable)
  }

  ghost predicate RegBegun(s: System, id: string, account: string, name: string, expiresAt: Time, signup: bool) {
    id in s.pending.reg && s.pending.reg[id] == C.RegCeremony(account, name, expiresAt, signup)
  }

  /** A login request without an account begins a discoverable ceremony. */
  lemma {:induction false} DiscoverableOptionsBegin(cfg: Config, s: System, asked: string, id: string, between: nat)
    requires id !in s.origins && TrimSpace(asked) == ""
    ensures LoginBegun(Steps(cfg, s, [StartLoginOptions(asked), On(s.next, AddCeremony(id, between))]),
                       id, "", [], s.clock + between + cfg.ttl, true)
  {
    var rid := s.next;
    StepsCons(cfg, s, StartLoginOptions(asked), [On(rid, AddCeremony(id, between))]);
    assert [StartLoginOptions(asked)] + [On(rid, AddCeremony(id, between))] ==
           [StartLoginOptions(asked), On(rid, AddCeremony(id, between))];
    var t := Step(cfg, s, StartLoginOptions(asked));
    AddEnds(cfg, t, rid, DiscoverReady(asked), id, between);
  }

  /** A login request with an account begins a ceremony over what Java lists for it, exactly
      when Java lists something; otherwise nothing is pending that was not. */
  lemma {:induction false} NamedOptionsBegin(
      cfg: Config, s: System, asked: string, credentials: seq<Credential>, id: string, between: nat)
    requires id !in s.origins && TrimSpace(asked) != ""
    ensures var rid := s.next;
            var s' := Steps(cfg, s, [StartLoginOptions(asked), On(rid, JavaLists(credentials)), On(rid, AddCeremony(id, between))]);
            if credentials != []
            then LoginBegun(s', id, TrimSpace(asked), credentials, s.clock + between + cfg.ttl, false)
            else s'.pending == s.pending
  {
    var rid := s.next;
    var rest := [On(rid, JavaLists(credentials)), On(rid, AddCeremony(id, between))];
    StepsCons(cfg, s, StartLoginOptions(asked), rest);
    assert [StartLoginOptions(asked)] + rest ==
           [StartLoginOptions(asked), On(rid, JavaLists(credentials)), On(rid, AddCeremony(id, between))];
    var t := Step(cfg, s, StartLoginOptions(asked));
    var u := Step(cfg, t, On(rid, JavaLists(credentials)));
    ReplyThenAdd(cfg, t, rid, JavaLists(credentials), u, id, between);
    if credentials != [] {
      AddEnds(cfg, u, rid, LoginReady(asked, TrimSpace(asked), credentials), id, between);
    } else {
      OverIsOver(cfg, u, rid, [On(rid, AddCeremony(id, between))]);
    }
  }

  /** The lookup that follows once a registration has its account. */
  lemma {:induction false} RegLookupBegins(
      cfg: Config, s: System, rid: RequestId, f: Flight, credentials: seq<Credential>, id: string, between: nat)
    requires rid in s.flights && s.flights[rid] == f && f.RegLookup? && id !in s.origins && !f.evidence.BySignup?
    ensures RegBegun(Steps(cfg, s, [On(rid, JavaLists(credentials)), On(rid, AddCeremony(id, between))]),
                     id, f.account, f.name, s.clock + between + cfg.ttl, false)
  {
    var u := Step(cfg, s, On(rid, JavaLists(credentials)));
    ReplyThenAdd(cfg, s, rid, JavaLists(credentials), u, id, between);
    AddEnds(cfg, u, rid, RegReady(f.account, f.name, f.evidence), id, between);
  }

  /** A registration request with a local token begins its ceremony without asking Java
      about the token, exactly when the shortcut is enabled, the token names an account and
      the label is acceptable. */
  lemma {:induction false} LocalRegistrationBegins(
      cfg: Config, s: System, token: string, nameAsked: string, credentials: seq<Credential>, id: string, between: nat)
    requires id !in s.origins && s.next !in s.flights
    requires cfg.localPairing && "account:" <= TrimSpace(token)
    ensures var rid, account := s.next, TrimSpace(TrimSpace(token)[8..]);
            var s' := Steps(cfg, s, [StartRegisterOptions(token, nameAsked), On(rid, JavaLists(credentials)),
                                     On(rid, AddCeremony(id, between))]);
            if account != "" && 1 <= |TrimSpace(nameAsked)| <= 48 && SafeName(TrimSpace(nameAsked))
            then RegBegun(s', id, account, TrimSpace(nameAsked), s.clock + between + cfg.ttl, false)
            else s'.pending == s.pending
  {
    var rid, account := s.next, TrimSpace(TrimSpace(token)[8..]);
    var rest := [On(rid, JavaLists(credentials)), On(rid, AddCeremony(id, between))];
    StepsCons(cfg, s, StartRegisterOptions(token, nameAsked), rest);
    assert [StartRegisterOptions(token, nameAsked)] + rest ==
           [StartRegisterOptions(token, nameAsked), On(rid, JavaLists(credentials)), On(rid, AddCeremony(id, between))];
    LocalAccountMeans(cfg, TrimSpace(token));
    LabelAccepts(nameAsked, TrimSpace(nameAsked));
    TrimEmpty();
    var t := Step(cfg, s, StartRegisterOptions(token, nameAsked));
    if account != "" && PasskeyLabel(nameAsked).Some? {
      RegLookupBegins(cfg, t, rid, RegLookup(account, TrimSpace(nameAsked), ByLocalToken(token)), credentials, id, between);
    } else {
      OverIsOver(cfg, t, rid, rest);
    }
  }

  lemma TrimEmpty()
    ensures TrimSpace("") == ""
  {
  }

  /** Any other token is put to Java, and the ceremony is begun for the account Java claims,
      exactly when there is one and the label is acceptable. */
  lemma {:induction false} PairingRegistrationBegins(
      cfg: Config, s: System, token: string, nameAsked: string, claimed: string, credentials: seq<Credential>,
      id: string, between: nat)
    requires id !in s.origins && s.next !in s.flights
    requires !(cfg.localPairing && "account:" <= TrimSpace(token))
    ensures var rid := s.next;
            var s' := Steps(cfg, s, [StartRegisterOptions(token, nameAsked), On(rid, JavaClaims(claimed)),
                                     On(rid, JavaLists(credentials)), On(rid, AddCeremony(id, between))]);
            if TrimSpace(token) != "" && TrimSpace(claimed) != ""
               && 1 <= |TrimSpace(nameAsked)| <= 48 && SafeName(TrimSpace(nameAsked))
            then RegBegun(s', id, TrimSpace(claimed), TrimSpace(nameAsked), s.clock + between + cfg.ttl, false)
            else s'.pending == s.pending
  {
    var rid := s.next;
    var rest := [On(rid, JavaClaims(claimed)), On(rid, JavaLists(credentials)), On(rid, AddCeremony(id, between))];
    StepsCons(cfg, s, StartRegisterOptions(token, nameAsked), rest);
    assert [StartRegisterOptions(token, nameAsked)] + rest ==
           [StartRegisterOptions(token, nameAsked), On(rid, JavaClaims(claimed)), On(rid, JavaLists(credentials)),
            On(rid, AddCeremony(id, between))];
    LocalAccountMeans(cfg, TrimSpace(token));
    LabelAccepts(nameAsked, TrimSpace(nameAsked));
    TrimEmpty();
    var t := Step(cfg, s, StartRegisterOptions(token, nameAsked));
    if TrimSpace(token) != "" && nameAsked != "" {
      ClaimBegins(cfg, t, rid, PairingAsked(token, nameAsked), claimed, credentials, id, between);
    } else {
      OverIsOver(cfg, t, rid, rest);
    }
  }

  lemma {:induction false} ClaimBegins(
      cfg: Config, s: System, rid: RequestId, f: Flight, claimed: string, credentials: seq<Credential>,
      id: string, between: nat)
    requires rid in s.flights && s.flights[rid] == f && f.PairingAsked? && id !in s.origins
    ensures var s' := Steps(cfg, s, [On(rid, JavaClaims(claimed)), On(rid, JavaLists(credentials)),
                                     On(rid, AddCeremony(id, between))]);
            if TrimSpace(claimed) != "" && PasskeyLabel(f.nameAsked).Some?
            then RegBegun(s', id, TrimSpace(claimed), PasskeyLabel(f.nameAsked).value, s.clock + between + cfg.ttl, false)
            else s'.pending == s.pending
  {
    var rest := [On(rid, JavaLists(credentials)), On(rid, AddCeremony(id, between))];
    StepsCons(cfg, s, On(rid, JavaClaims(claimed)), rest);
    assert [On(rid, JavaClaims(claimed))] + rest ==
           [On(rid, JavaClaims(claimed)), On(rid, JavaLists(credentials)), On(rid, AddCeremony(id, between))];
    var t := Step(cfg, s, On(rid, JavaClaims(claimed)));
    var name := PasskeyLabel(f.nameAsked);
    if TrimSpace(claimed) != "" && name.Some? {
      RegLookupBegins(cfg, t, rid, RegLookup(TrimSpace(claimed), name.value, ByPairing(f.presented, claimed)),
                      credentials, id, between);
    } else {
      OverIsOver(cfg, t, rid, rest);
    }
  }

  /** A signup request begins its ceremony exactly when the name and the label are
      acceptable and Java's refusal to look the name up says nothing or that it is unknown;
      when Java lists credentials the name is taken, and nothing begins. */
  lemma {:induction false} SignupBeginsIff(
      cfg: Config, s: System, asked: string, nameAsked: string, answer: Reply, id: string, between: nat)
    requires id !in s.origins && s.next !in s.flights && (answer.JavaRefuses? || answer.JavaLists?)
    ensures var rid, account := s.next, TrimSpace(asked);
            var s' := Steps(cfg, s, [StartSignupOptions(asked, nameAsked), On(rid, answer), On(rid, AddCeremony(id, between))]);
            if 3 <= |account| <= 32 && SafeName(account) && !Reserved(account)
               && 1 <= |TrimSpace(nameAsked)| <= 48 && SafeName(TrimSpace(nameAsked))
               && answer.JavaRefuses? && TrimSpace(answer.message) in {"", "Unknown account."}
            then RegBegun(s', id, account, TrimSpace(nameAsked), s.clock + between + cfg.ttl, true)
            else s'.pending == s.pending
  {
    var rid, account := s.next, TrimSpace(asked);
    var rest := [On(rid, answer), On(rid, AddCeremony(id, between))];
    StepsCons(cfg, s, StartSignupOptions(asked, nameAsked), rest);
    assert [StartSignupOptions(asked, nameAsked)] + rest ==
           [StartSignupOptions(asked, nameAsked), On(rid, answer), On(rid, AddCeremony(id, between))];
    SignupAccepts(asked, account);
    LabelAccepts(nameAsked, TrimSpace(nameAsked));
    TrimEmpty();
    var t := Step(cfg, s, StartSignupOptions(asked, nameAsked));
    if SignupAccount(asked).Some? && PasskeyLabel(nameAsked).Some? {
      SignupAnswerBegins(cfg, t, rid, SignupLookup(account, TrimSpace(nameAsked), asked), answer, id, between);
    } else {
      OverIsOver(cfg, t, rid, rest);
    }
  }

  lemma {:induction false} SignupAnswerBegins(
      cfg: Config, s: System, rid: RequestId, f: Flight, answer: Reply, id: string, between: nat)
    requires rid in s.flights && s.flights[rid] == f && f.SignupLookup? && id !in s.origins
    requires answer.JavaRefuses? || answer.JavaLists?
    ensures var s' := Steps(cfg, s, [On(rid, answer), On(rid, AddCeremony(id, between))]);
            if answer.JavaRefuses? && TrimSpace(answer.message) in {"", "Unknown account."}
            then RegBegun(s', id, f.account, f.name, s.clock + between + cfg.ttl, true)
            else s'.pending == s.pending
  {
    var u := Step(cfg, s, On(rid, answer));
    ReplyThenAdd(cfg, s, rid, answer, u, id, between);
    if answer.JavaRefuses? && TrimSpace(answer.message) in {"", "Unknown account."} {
      AddEnds(cfg, u, rid, RegReady(f.account, f.name, BySignup(f.requested, answer.message)), id, between);
    } else {
      OverIsOver(cfg, u, rid, [On(rid, AddCeremony(id, between))]);
    }
  }

  /** A request that fails, or whose lookup Java refuses for any reason but a free name at
      signup, is over: it begins no ceremony, sends no command and mints no session. */
  lemma {:induction false} RefusalEnds(cfg: Config, s: System, rid: RequestId, f: Flight, reply: Reply)
    requires rid in s.flights && s.flights[rid] == f
    requires reply.Failure?
             || (reply.JavaRefuses?
                 && (f.LoginLookup? || f.RegLookup? || f.HandleLookup?
                     || (f.SignupLookup? && TrimSpace(reply.message) !in {"", "Unknown account."})))
    ensures var s' := Step(cfg, s, On(rid, reply));
            && s'.flights == s.flights - {rid}
            && s'.pending == s.pending && s'.commands == s.commands && s'.sessions == s.sessions
            && s'.consumed == s.consumed
  {
  }

  // ----- how sessions are minted

  /** The flight after the library accepted an assertion. */
  lemma {:induction false} AssertionEnds(
      cfg: Config, s: System, rid: RequestId, rawId: seq<Byte>, id: string, auth: Auth, sessionId: string)
    requires rid in s.flights && Accepted(s, rid, rawId) == Advance(s, rid, CounterPending(id, auth))
    ensures Steps(cfg, s, [On(rid, AssertionAccepted(rawId)), On(rid, JavaAccepts), On(rid, Mint(sessionId))]).sessions ==
            s.sessions + [Session(sessionId, id, rid, auth)]
  {
    var rest := [On(rid, JavaAccepts), On(rid, Mint(sessionId))];
    StepsCons(cfg, s, On(rid, AssertionAccepted(rawId)), rest);
    assert [On(rid, AssertionAccepted(rawId))] + rest ==
           [On(rid, AssertionAccepted(rawId)), On(rid, JavaAccepts), On(rid, Mint(sessionId))];
    AcceptEnds(cfg, Advance(s, rid, CounterPending(id, auth)), rid, CounterPending(id, auth), sessionId);
  }

  /** An account-named login whose ceremony is still open mints exactly one session when
      the library accepts and Java confirms: for the ceremony's account, with the
      credential that was used. */
  lemma {:induction false} LoginMints(cfg: Config, s: System, id: string, rawId: seq<Byte>, sessionId: string)
    requires TrimSpace(id) != "" && id in s.pending.login && s.clock < s.pending.login[id].expiresAt
    requires !s.pending.login[id].discoverable && Offers(s.pending.login[id].credentials, rawId)
    ensures var rid, c := s.next, s.pending.login[id];
            Steps(cfg, s, [StartLoginVerify(id), On(rid, AssertionAccepted(rawId)), On(rid, JavaAccepts),
                           On(rid, Mint(sessionId))]).sessions ==
            s.sessions + [Session(sessionId, id, rid,
              Auth(c.account, Encode(rawId), LabelFor(c.credentials, Encode(rawId)), ByAssertion(rawId)))]
  {
    var rid, c := s.next, s.pending.login[id];
    var rest := [On(rid, AssertionAccepted(rawId)), On(rid, JavaAccepts), On(rid, Mint(sessionId))];
    StepsCons(cfg, s, StartLoginVerify(id), rest);
    assert [StartLoginVerify(id)] + rest ==
           [StartLoginVerify(id), On(rid, AssertionAccepted(rawId)), On(rid, JavaAccepts), On(rid, Mint(sessionId))];
    var t := Step(cfg, s, StartLoginVerify(id));
    assert t.flights[rid] == LoginChecking(id, c) && t.sessions == s.sessions;
    AssertionEnds(cfg, t, rid, rawId, id,
      Auth(c.account, Encode(rawId), LabelFor(c.credentials, Encode(rawId)), ByAssertion(rawId)), sessionId);
  }

  /** A discoverable login mints a session exactly when the handle names an account and
      Java lists the credential used as one of its active ones. */
  lemma {:induction false} DiscoverableLoginMintsIff(
      cfg: Config, s: System, id: string, rawId: seq<Byte>, handle: string, credentials: seq<Credential>, sessionId: string)
    requires TrimSpace(id) != "" && id in s.pending.login && s.clock < s.pending.login[id].expiresAt
    requires s.pending.login[id].discoverable && Offers(credentials, rawId)
    ensures var rid := s.next;
            Steps(cfg, s, [StartLoginVerify(id), On(rid, HandlerCalled(rawId, handle)), On(rid, JavaLists(credentials)),
                           On(rid, AssertionAccepted(rawId)), On(rid, JavaAccepts), On(rid, Mint(sessionId))]).sessions ==
            s.sessions +
            if LoginAccount(handle).Some? && ActiveMatch(credentials, rawId)
            then [Session(sessionId, id, rid,
                   Auth(LoginAccount(handle).value, Encode(rawId), LabelFor(credentials, Encode(rawId)),
                        ByHandle(rawId, handle, credentials)))]
            else []
  {
    var rid, c := s.next, s.pending.login[id];
    var rest := [On(rid, HandlerCalled(rawId, handle)), On(rid, JavaLists(credentials)),
                 On(rid, AssertionAccepted(rawId)), On(rid, JavaAccepts), On(rid, Mint(sessionId))];
    StepsCons(cfg, s, StartLoginVerify(id), rest);
    assert [StartLoginVerify(id)] + rest ==
           [StartLoginVerify(id), On(rid, HandlerCalled(rawId, handle)), On(rid, JavaLists(credentials)),
            On(rid, AssertionAccepted(rawId)), On(rid, JavaAccepts), On(rid, Mint(sessionId))];
    var t := Step(cfg, s, StartLoginVerify(id));
    assert t.flights[rid] == LoginChecking(id, c) && t.sessions == s.sessions;
    HandleEnds(cfg, t, rid, id, c, rawId, handle, credentials, sessionId);
  }

  lemma {:induction false} HandleEnds(
      cfg: Config, s: System, rid: RequestId, id: string, c: C.LoginCeremony, rawId: seq<Byte>, handle: string,
      credentials: seq<Credential>, sessionId: string)
    requires rid in s.flights && s.flights[rid] == LoginChecking(id, c) && c.discoverable && Offers(credentials, rawId)
    ensures Steps(cfg, s, [On(rid, HandlerCalled(rawId, handle)), On(rid, JavaLists(credentials)),
                           On(rid, AssertionAccepted(rawId)), On(rid, JavaAccepts), On(rid, Mint(sessionId))]).sessions ==
            s.sessions +
            if LoginAccount(handle).Some? && ActiveMatch(credentials, rawId)
            then [Session(sessionId, id, rid,
                   Auth(LoginAccount(handle).value, Encode(rawId), LabelFor(credentials, Encode(rawId)),
                        ByHandle(rawId, handle, credentials)))]
            else []
  {
    var rest := [On(rid, JavaLists(credentials)), On(rid, AssertionAccepted(rawId)), On(rid, JavaAccepts),
                 On(rid, Mint(sessionId))];
    StepsCons(cfg, s, On(rid, HandlerCalled(rawId, handle)), rest);
    assert [On(rid, HandlerCalled(rawId, handle))] + rest ==
           [On(rid, HandlerCalled(rawId, handle)), On(rid, JavaLists(credentials)),
            On(rid, AssertionAccepted(rawId)), On(rid, JavaAccepts), On(rid, Mint(sessionId))];
    var t := Step(cfg, s, On(rid, HandlerCalled(rawId, handle)));
    if LoginAccount(handle).Some? {
      LoginAccepts(handle, LoginAccount(handle).value);
      LookupEnds(cfg, t, rid, HandleLookup(id, c, rawId, handle, LoginAccount(handle).value), credentials, sessionId);
    } else {
      OverIsOver(cfg, t, rid, rest);
    }
  }

  lemma {:induction false} ResolvedEnds(cfg: Config, s: System, rid: RequestId, f: Flight, sessionId: string)
    requires rid in s.flights && s.flights[rid] == f && f.HandleResolved? && Offers(f.credentials, f.rawId)
    requires TrimSpace(f.account) == f.account != ""
    ensures Steps(cfg, s, [On(rid, AssertionAccepted(f.rawId)), On(rid, JavaAccepts), On(rid, Mint(sessionId))]).sessions ==
            s.sessions + [Session(sessionId, f.id, rid,
              Auth(f.account, Encode(f.rawId), LabelFor(f.credentials, Encode(f.rawId)),
                   ByHandle(f.rawId, f.handle, f.credentials)))]
  {
    AssertionEnds(cfg, s, rid, f.rawId, f.id,
      Auth(f.account, Encode(f.rawId), LabelFor(f.credentials, Encode(f.rawId)),
           ByHandle(f.rawId, f.handle, f.credentials)), sessionId);
  }

  lemma {:induction false} LookupEnds(
      cfg: Config, s: System, rid: RequestId, f: Flight, credentials: seq<Credential>, sessionId: string)
    requires rid in s.flights && s.flights[rid] == f && f.HandleLookup? && Offers(credentials, f.rawId)
    requires TrimSpace(f.account) == f.account != ""
    ensures Steps(cfg, s, [On(rid, JavaLists(credentials)), On(rid, AssertionAccepted(f.rawId)), On(rid, JavaAccepts),
                           On(rid, Mint(sessionId))]).sessions ==
            s.sessions +
            if ActiveMatch(credentials, f.rawId)
            then [Session(sessionId, f.id, rid,
                   Auth(f.account, Encode(f.rawId), LabelFor(credentials, Encode(f.rawId)),
                        ByHandle(f.rawId, f.handle, credentials)))]
            else []
  {
    var rest := [On(rid, AssertionAccepted(f.rawId)), On(rid, JavaAccepts), On(rid, Mint(sessionId))];
    StepsCons(cfg, s, On(rid, JavaLists(credentials)), rest);
    assert [On(rid, JavaLists(credentials))] + rest ==
           [On(rid, JavaLists(credentials)), On(rid, AssertionAccepted(f.rawId)), On(rid, JavaAccepts),
            On(rid, Mint(sessionId))];
    var t := Step(cfg, s, On(rid, JavaLists(credentials)));
    if ActiveMatch(credentials, f.rawId) {
      ResolvedEnds(cfg, t, rid, HandleResolved(f.id, f.login, f.rawId, f.handle, f.account, credentials), sessionId);
    } else {
      OverIsOver(cfg, t, rid, rest);
    }
  }

  /** Verifying a registration sends the one command its ceremony calls for, by either
      route; and it mints a session exactly when the route is signup's, whichever kind the
      ceremony is. */
  lemma {:induction false} RegistrationSendsCommand(
      cfg: Config, s: System, id: string, route: Route, rawId: seq<Byte>, sessionId: string)
    requires TrimSpace(id) != "" && id in s.pending.reg && s.clock < s.pending.reg[id].expiresAt
    ensures var rid, c := s.next, s.pending.reg[id];
            var s' := Steps(cfg, s, [StartRegVerify(id, route), On(rid, AttestationAccepted(rawId)), On(rid, JavaAccepts),
                                     On(rid, Mint(sessionId))]);
            && s'.commands == s.commands + [Command(id, c.signup, c.account, c.name, Encode(rawId))]
            && s'.sessions == s.sessions +
               if route.SignupRoute?
               then [Session(sessionId, id, rid, Auth(c.account, Encode(rawId), c.name, ByAttestation(rawId)))]
               else []
  {
    var rid, c := s.next, s.pending.reg[id];
    var rest := [On(rid, AttestationAccepted(rawId)), On(rid, JavaAccepts), On(rid, Mint(sessionId))];
    StepsCons(cfg, s, StartRegVerify(id, route), rest);
    assert [StartRegVerify(id, route)] + rest ==
           [StartRegVerify(id, route), On(rid, AttestationAccepted(rawId)), On(rid, JavaAccepts), On(rid, Mint(sessionId))];
    var t := Step(cfg, s, StartRegVerify(id, route));
    assert t.flights[rid] == RegChecking(id, c, route) && t.sessions == s.sessions && t.commands == s.commands;
    AttestationEnds(cfg, t, rid, RegChecking(id, c, route), rawId, sessionId);
  }

  lemma {:induction false} AttestationEnds(
      cfg: Config, s: System, rid: RequestId, f: Flight, rawId: seq<Byte>, sessionId: string)
    requires rid in s.flights && s.flights[rid] == f && f.RegChecking?
    ensures var s' := Steps(cfg, s, [On(rid, AttestationAccepted(rawId)), On(rid, JavaAccepts), On(rid, Mint(sessionId))]);
            var c := Command(f.id, f.reg.signup, f.reg.account, f.reg.name, Encode(rawId));
            && s'.commands == s.commands + [c]
            && s'.sessions == s.sessions +
               if f.route.SignupRoute? then [Session(sessionId, f.id, rid, AttestedAuth(c, rawId))] else []
  {
    var rest := [On(rid, JavaAccepts), On(rid, Mint(sessionId))];
    var c := Command(f.id, f.reg.signup, f.reg.account, f.reg.name, Encode(rawId));
    StepsCons(cfg, s, On(rid, AttestationAccepted(rawId)), rest);
    assert [On(rid, AttestationAccepted(rawId))] + rest ==
           [On(rid, AttestationAccepted(rawId)), On(rid, JavaAccepts), On(rid, Mint(sessionId))];
    AttestedIs(s, rid, rawId, f, c);
    var g := CommandPending(f.id, f.route, AttestedAuth(c, rawId));
    AcceptEnds(cfg, Advance(Send(s, rid, c), rid, g), rid, g, sessionId);
  }
}
