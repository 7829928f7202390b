/** The pending passkey ceremonies: two maps, one prune timer, and take-once access. */
module Ceremonies {
  import opened Clock
  import opened Credentials
  import opened Wrappers

  datatype LoginCeremony = LoginCeremony(
    account: string, credentials: seq<Credential>, expiresAt: Time, discoverable: bool)
  datatype RegCeremony = RegCeremony(account: string, name: string, expiresAt: Time, signup: bool)

  datatype State = State(login: map<string, LoginCeremony>, reg: map<string, RegCeremony>, nextPrune: Time)
  const EMPTY := State(map[], map[], ZERO_TIME)

  /** Five minutes, on a clock that counts seconds. */
  const DEFAULT_TTL := 300

  predicate PruneDue(s: State, now: Time) {
    s.nextPrune == ZERO_TIME || s.nextPrune <= now
  }

  function Pruned(ttl: int, s: State, now: Time): State {
    if !PruneDue(s, now) then s
    else State(
      map id | id in s.login && now < s.login[id].expiresAt :: s.login[id],
      map id | id in s.reg && now < s.reg[id].expiresAt :: s.reg[id],
      now + ttl)
  }

  /** Under one lock the clock is read twice: to prune, and to date the ceremony. */
  function LoginAdded(ttl: int, s: State, id: string, c: LoginCeremony, pruneAt: Time, at: Time): State {
    var p := Pruned(ttl, s, pruneAt);
    State(p.login[id := c.(expiresAt := at + ttl)], p.reg, p.nextPrune)
  }

  function RegAdded(ttl: int, s: State, id: string, c: RegCeremony, pruneAt: Time, at: Time): State {
    var p := Pruned(ttl, s, pruneAt);
    State(p.login, p.reg[id := c.(expiresAt := at + ttl)], p.nextPrune)
  }

  function LoginTaken(s: State, id: string, now: Time): (State, Option<LoginCeremony>) {
    (State(s.login - {id}, s.reg, s.nextPrune),
     if id in s.login && now < s.login[id].expiresAt then Some(s.login[id]) else None)
  }

  function RegTaken(s: State, id: string, now: Time): (State, Option<RegCeremony>) {
    (State(s.login, s.reg - {id}, s.nextPrune),
     if id in s.reg && now < s.reg[id].expiresAt then Some(s.reg[id]) else None)
  }

  class Registry {
    const ttl: int
    var loginPending: map<string, LoginCeremony>
    var regPending: map<string, RegCeremony>
    var nextPruneTime: Time

    ghost function Snapshot(): State
      reads this
    {
      State(loginPending, regPending, nextPruneTime)
    }

    constructor (ttl: int)
      ensures this.ttl == (if ttl <= 0 then 5 * 60 else ttl)
      ensures loginPending == map[] && regPending == map[] && nextPruneTime == ZERO_TIME
    {
      this.ttl := if ttl <= 0 then DEFAULT_TTL else ttl;
      loginPending, regPending, nextPruneTime := map[], map[], ZERO_TIME;
    }

    method AddLogin(id: string, account: string, credentials: seq<Credential>, discoverable: bool,
                    pruneAt: Time, now: Time)
      modifies this
      ensures Snapshot() ==
              LoginAdded(ttl, old(Snapshot()), id, LoginCeremony(account, credentials, ZERO_TIME, discoverable), pruneAt, now)
    {
      PruneLocked(pruneAt);
      loginPending := loginPending[id := LoginCeremony(account, credentials, now + ttl, discoverable)];
    }

    method AddRegistration(id: string, account: string, name: string, signup: bool, pruneAt: Time, now: Time)
      modifies this
      ensures Snapshot() == RegAdded(ttl, old(Snapshot()), id, RegCeremony(account, name, ZERO_TIME, signup), pruneAt, now)
    {
      PruneLocked(pruneAt);
      regPending := regPending[id := RegCeremony(account, name, now + ttl, signup)];
    }

    method TakeLogin(id: string, now: Time) returns (r: Option<LoginCeremony>)
      modifies this
      ensures (Snapshot(), r) == LoginTaken(old(Snapshot()), id, now)
    {
      r := None;
      if id in loginPending {
        r := Some(loginPending[id]);
      }
      loginPending := loginPending - {id};
      if r.None? || !(now < r.value.expiresAt) {
        return None;
      }
    }

    method TakeRegistration(id: string, now: Time) returns (r: Option<RegCeremony>)
      modifies this
      ensures (Snapshot(), r) == RegTaken(old(Snapshot()), id, now)
    {
      r := None;
      if id in regPending {
        r := Some(regPending[id]);
      }
      regPending := regPending - {id};
      if r.None? || !(now < r.value.expiresAt) {
        return None;
      }
    }

    method PruneLocked(now: Time)
      modifies this
      ensures Snapshot() == Pruned(ttl, old(Snapshot()), now)
    {
      if nextPruneTime != ZERO_TIME && now < nextPruneTime {
        return;
      }
      PruneLogins(now);
      PruneRegs(now);
      nextPruneTime := now + ttl;
    }

    /** The prune's first loop. */
    method PruneLogins(now: Time)
      modifies this`loginPending
      ensures loginPending == map id | id in old(loginPending) && now < old(loginPending)[id].expiresAt :: old(loginPending)[id]
    {
      ghost var was := loginPending;
      var todo := loginPending.Keys;
      while todo != {}
        invariant todo <= was.Keys
        invariant loginPending == map id | id in was && (id in todo || now < was[id].expiresAt) :: was[id]
        decreases todo
      {
        var id :| id in todo;
        if !(now < loginPending[id].expiresAt) {
          loginPending := loginPending - {id};
        }
        todo := todo - {id};
      }
    }

    /** The prune's second loop. */
    method PruneRegs(now: Time)
      modifies this`regPending
      ensures regPending == map id | id in old(regPending) && now < old(regPending)[id].expiresAt :: old(regPending)[id]
    {
      ghost var was := regPending;
      var todo := regPending.Keys;
      while todo != {}
        invariant todo <= was.Keys
        invariant regPending == map id | id in was && (id in todo || now < was[id].expiresAt) :: was[id]
        decreases todo
      {
        var id :| id in todo;
        if !(now < regPending[id].expiresAt) {
          regPending := regPending - {id};
        }
        todo := todo - {id};
      }
    }
  }

  // ----- whole runs

  datatype Op =
    | AddLogin(id: string, login: LoginCeremony, pruneAt: Time, at: Time)
    | AddReg(id: string, reg: RegCeremony, pruneAt: Time, at: Time)
    | TakeLogin(id: string, at: Time)
    | TakeReg(id: string, at: Time)
  {
    predicate Adds() { AddLogin? || AddReg? }
    /** The first clock reading of the operation. */
    function From(): Time { if Adds() then pruneAt else at }
  }

  /** Operations in lock order under a clock that never goes backwards. */
  ghost predicate Clocked(ops: seq<Op>) {
    && (forall i :: 0 <= i < |ops| ==> ZERO_TIME < ops[i].From() <= ops[i].at)
    && (forall i, j :: 0 <= i < j < |ops| ==> ops[i].at <= ops[j].From())
  }

  /** Ceremony ids are random: no id is given out twice, for either kind. */
  ghost predicate FreshIds(ops: seq<Op>) {
    forall i, j :: 0 <= i < j < |ops| && ops[i].Adds() && ops[j].Adds() ==> ops[i].id != ops[j].id
  }

  function Apply(ttl: int, s: State, op: Op): State {
    match op
    case AddLogin(id, c, p, t) => LoginAdded(ttl, s, id, c, p, t)
    case AddReg(id, c, p, t) => RegAdded(ttl, s, id, c, p, t)
    case TakeLogin(id, t) => LoginTaken(s, id, t).0
    case TakeReg(id, t) => RegTaken(s, id, t).0
  }

  function Run(ttl: int, ops: seq<Op>): State {
    if ops == [] then EMPTY else Apply(ttl, Run(ttl, ops[..|ops| - 1]), ops[|ops| - 1])
  }

  /** The login ceremony added under an id and not asked for since. */
  function LoginOpen(ttl: int, ops: seq<Op>, id: string): Option<LoginCeremony> {
    if ops == [] then None
    else
      var last := ops[|ops| - 1];
      if last.AddLogin? && last.id == id then Some(last.login.(expiresAt := last.at + ttl))
      else if last.TakeLogin? && last.id == id then None
      else LoginOpen(ttl, ops[..|ops| - 1], id)
  }

  function RegOpen(ttl: int, ops: seq<Op>, id: string): Option<RegCeremony> {
    if ops == [] then None
    else
      var last := ops[|ops| - 1];
      if last.AddReg? && last.id == id then Some(last.reg.(expiresAt := last.at + ttl))
      else if last.TakeReg? && last.id == id then None
      else RegOpen(ttl, ops[..|ops| - 1], id)
  }

  ghost predicate LoginAgrees(ttl: int, ops: seq<Op>, id: string, now: Time) {
    var s, o := Run(ttl, ops), LoginOpen(ttl, ops, id);
    if id in s.login then o == Some(s.login[id]) else o.Some? ==> o.value.expiresAt <= now
  }

  ghost predicate RegAgrees(ttl: int, ops: seq<Op>, id: string, now: Time) {
    var s, o := Run(ttl, ops), RegOpen(ttl, ops, id);
    if id in s.reg then o == Some(s.reg[id]) else o.Some? ==> o.value.expiresAt <= now
  }

  lemma {:induction false} RunAgrees(ttl: int, ops: seq<Op>, id: string, now: Time)
    requires Clocked(ops) && forall i :: 0 <= i < |ops| ==> ops[i].at <= now
    ensures LoginAgrees(ttl, ops, id, now) && RegAgrees(ttl, ops, id, now)
  {
    if ops != [] {
      var n := |ops| - 1;
      RunAgrees(ttl, ops[..n], id, ops[n].From());
    }
  }

  /** A take succeeds exactly when a ceremony of its kind was added under the id, nobody
      has asked for that id since, and its time is not over; and it returns that very
      ceremony. The prune timer the two maps share changes no outcome. */
  lemma {:induction false} TakeMatchesHistory(ttl: int, ops: seq<Op>, id: string, now: Time)
    requires Clocked(ops) && forall i :: 0 <= i < |ops| ==> ops[i].at <= now
    ensures var login, open := LoginTaken(Run(ttl, ops), id, now).1, LoginOpen(ttl, ops, id);
            login == if open.Some? && now < open.value.expiresAt then open else None
    ensures var reg, open := RegTaken(Run(ttl, ops), id, now).1, RegOpen(ttl, ops, id);
            reg == if open.Some? && now < open.value.expiresAt then open else None
  {
    RunAgrees(ttl, ops, id, now);
  }

  // ----- the same without recursion

  datatype Kind = Login | Reg

  predicate Opens(op: Op, kind: Kind, id: string) {
    op.id == id && if kind.Login? then op.AddLogin? else op.AddReg?
  }

  predicate Asks(op: Op, kind: Kind, id: string) {
    op.id == id && if kind.Login? then op.TakeLogin? else op.TakeReg?
  }

  /** The operation at `i` added the ceremony and no later operation asked for it. */
  ghost predicate OpenSince(ops: seq<Op>, kind: Kind, id: string, i: nat) {
    && i < |ops| && Opens(ops[i], kind, id)
    && forall j :: i < j < |ops| ==> !Asks(ops[j], kind, id)
  }

  lemma {:induction false} OpenSinceStep(ops: seq<Op>, kind: Kind, id: string, i: nat)
    requires FreshIds(ops) && ops != []
    ensures var n := |ops| - 1;
            OpenSince(ops, kind, id, i) <==>
            if Opens(ops[n], kind, id) then i == n
            else !Asks(ops[n], kind, id) && OpenSince(ops[..n], kind, id, i)
  {
    var n := |ops| - 1;
    if OpenSince(ops[..n], kind, id, i) {
      assert ops[i] == ops[..n][i];
    }
  }

  lemma {:induction false} OpenSinceLast(ops: seq<Op>, kind: Kind, id: string)
    requires FreshIds(ops) && ops != []
    ensures var n := |ops| - 1;
            (exists i: nat :: OpenSince(ops, kind, id, i)) <==>
            Opens(ops[n], kind, id) || (!Asks(ops[n], kind, id) && exists i: nat :: OpenSince(ops[..n], kind, id, i))
  {
    var n := |ops| - 1;
    if i: nat :| OpenSince(ops, kind, id, i) {
      OpenSinceStep(ops, kind, id, i);
    }
    if Opens(ops[n], kind, id) {
      assert OpenSince(ops, kind, id, n);
    } else if i: nat :| OpenSince(ops[..n], kind, id, i) {
      OpenSinceStep(ops, kind, id, i);
    }
  }

  lemma {:induction false} LoginOpenMeans(ttl: int, ops: seq<Op>, id: string, i: nat)
    requires FreshIds(ops)
    ensures LoginOpen(ttl, ops, id).Some? <==> exists k: nat :: OpenSince(ops, Login, id, k)
    ensures OpenSince(ops, Login, id, i) ==>
              LoginOpen(ttl, ops, id) == Some(ops[i].login.(expiresAt := ops[i].at + ttl))
  {
    if ops != [] {
      var n := |ops| - 1;
      LoginOpenMeans(ttl, ops[..n], id, i);
      OpenSinceLast(ops, Login, id);
      OpenSinceStep(ops, Login, id, i);
    }
  }

  lemma {:induction false} RegOpenMeans(ttl: int, ops: seq<Op>, id: string, i: nat)
    requires FreshIds(ops)
    ensures RegOpen(ttl, ops, id).Some? <==> exists k: nat :: OpenSince(ops, Reg, id, k)
    ensures OpenSince(ops, Reg, id, i) ==>
              RegOpen(ttl, ops, id) == Some(ops[i].reg.(expiresAt := ops[i].at + ttl))
  {
    if ops != [] {
      var n := |ops| - 1;
      RegOpenMeans(ttl, ops[..n], id, i);
      OpenSinceLast(ops, Reg, id);
      OpenSinceStep(ops, Reg, id, i);
    }
  }

  /** When ids are fresh, a take succeeds exactly when some operation added a ceremony of
      that kind under the id, none has asked for it since, and the time is before the
      insertion time plus the lifetime. */
  lemma {:induction false} TakeSucceedsIff(ttl: int, ops: seq<Op>, id: string, now: Time)
    requires Clocked(ops) && FreshIds(ops) && forall i :: 0 <= i < |ops| ==> ops[i].at <= now
    ensures LoginTaken(Run(ttl, ops), id, now).1.Some? <==>
            exists i: nat :: OpenSince(ops, Login, id, i) && now < ops[i].at + ttl
    ensures RegTaken(Run(ttl, ops), id, now).1.Some? <==>
            exists i: nat :: OpenSince(ops, Reg, id, i) && now < ops[i].at + ttl
  {
    TakeMatchesHistory(ttl, ops, id, now);
    forall i: nat ensures OpenSince(ops, Login, id, i) ==>
                            LoginOpen(ttl, ops, id) == Some(ops[i].login.(expiresAt := ops[i].at + ttl)) {
      LoginOpenMeans(ttl, ops, id, i);
    }
    forall i: nat ensures OpenSince(ops, Reg, id, i) ==>
                            RegOpen(ttl, ops, id) == Some(ops[i].reg.(expiresAt := ops[i].at + ttl)) {
      RegOpenMeans(ttl, ops, id, i);
    }
    LoginOpenMeans(ttl, ops, id, 0);
    RegOpenMeans(ttl, ops, id, 0);
  }

  /** One use only: after any take of an id, successful or not, a later take of that id
      fails unless it was handed out in between. */
  lemma {:induction false} TakenOnce(ttl: int, ops: seq<Op>, more: seq<Op>, kind: Kind, id: string, now: Time)
    requires Clocked(ops + more) && forall i :: 0 <= i < |ops + more| ==> (ops + more)[i].at <= now
    requires ops != [] && Asks(ops[|ops| - 1], kind, id)
    requires forall i :: 0 <= i < |more| ==> !Opens(more[i], kind, id)
    ensures kind == Login ==> LoginTaken(Run(ttl, ops + more), id, now).1 == None
    ensures kind == Reg ==> RegTaken(Run(ttl, ops + more), id, now).1 == None
  {
    StaysClosed(ttl, ops, more, kind, id);
    TakeMatchesHistory(ttl, ops + more, id, now);
  }

  lemma {:induction false} StaysClosed(ttl: int, ops: seq<Op>, more: seq<Op>, kind: Kind, id: string)
    requires ops != [] && Asks(ops[|ops| - 1], kind, id)
    requires forall i :: 0 <= i < |more| ==> !Opens(more[i], kind, id)
    ensures kind == Login ==> LoginOpen(ttl, ops + more, id) == None
    ensures kind == Reg ==> RegOpen(ttl, ops + more, id) == None
  {
    if more == [] {
      assert ops + more == ops;
    } else {
      var n := |more| - 1;
      StaysClosed(ttl, ops, more[..n], kind, id);
      assert (ops + more)[..|ops + more| - 1] == ops + more[..n];
    }
  }

  // ----- garbage

  ghost predicate Tidy(ttl: int, s: State, now: Time) {
    && (s.nextPrune == ZERO_TIME ==> s == EMPTY)
    && (s.nextPrune != ZERO_TIME ==> s.nextPrune - ttl <= now)
    && (forall id :: id in s.login ==> s.nextPrune - ttl < s.login[id].expiresAt)
    && (forall id :: id in s.reg ==> s.nextPrune - ttl < s.reg[id].expiresAt)
  }

  lemma {:induction false} RunStaysTidy(ttl: int, ops: seq<Op>, now: Time)
    requires ttl > 0 && Clocked(ops) && forall i :: 0 <= i < |ops| ==> ops[i].at <= now
    ensures Tidy(ttl, Run(ttl, ops), now)
  {
    if ops != [] {
      var n := |ops| - 1;
      RunStaysTidy(ttl, ops[..n], ops[n].From());
    }
  }

  /** Lazy pruning bounds the garbage: when a ceremony is added, every ceremony pending
      afterwards was added less than two lifetimes before the prune's clock reading. */
  lemma {:induction false} PendingIsYoung(ttl: int, ops: seq<Op>, id: string)
    requires ttl > 0 && Clocked(ops) && ops != [] && ops[|ops| - 1].Adds()
    ensures var s, now := Run(ttl, ops), ops[|ops| - 1].pruneAt;
            && (id in s.login ==> now - (s.login[id].expiresAt - ttl) < 2 * ttl)
            && (id in s.reg ==> now - (s.reg[id].expiresAt - ttl) < 2 * ttl)
  {
    var n := |ops| - 1;
    RunStaysTidy(ttl, ops[..n], ops[n].pruneAt);
  }
}
