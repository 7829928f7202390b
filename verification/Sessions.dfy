/** The session store: records with an absolute and an idle expiry, in a map that is
    updated in place and pruned lazily. */
module Sessions {
  import opened Clock
  import opened Wrappers

  datatype Record = Record(
    id: string, account: string, credentialId: string, credentialLabel: string,
    createdAt: Time, lastSeenAt: Time, expiresAt: Time)

  datatype Ttls = Ttls(ttl: int, idleTtl: int) {
    /** The configuration the server accepts. */
    predicate Valid() { ttl > 0 && idleTtl > 0 }
    function Shorter(): int { if ttl < idleTtl then ttl else idleTtl }
  }

  datatype State = State(nextPrune: Time, records: map<string, Record>)
  const EMPTY := State(ZERO_TIME, map[])

  predicate Expired(c: Ttls, r: Record, now: Time) {
    r.expiresAt <= now || now - r.lastSeenAt > c.idleTtl
  }

  predicate PruneDue(s: State, now: Time) {
    s.records != map[] && (s.nextPrune == ZERO_TIME || s.nextPrune <= now)
  }

  function Pruned(c: Ttls, s: State, now: Time): State {
    if PruneDue(s, now)
    then State(now + c.Shorter(), map id | id in s.records && !Expired(c, s.records[id], now) :: s.records[id])
    else s
  }

  function Fresh(c: Ttls, id: string, account: string, credentialId: string, credentialLabel: string, now: Time): Record {
    Record(id, account, credentialId, credentialLabel, now, now, now + c.ttl)
  }

  /** The locked half of Create: `now` is the clock reading taken before the lock. */
  function Inserted(c: Ttls, s: State, r: Record, now: Time): State {
    var p := Pruned(c, s, now);
    State(p.nextPrune, p.records[r.id := r])
  }

  function Touched(c: Ttls, s: State, id: string, now: Time): (State, Option<Record>) {
    if id !in s.records then (s, None)
    else if Expired(c, s.records[id], now) then (State(s.nextPrune, s.records - {id}), None)
    else
      var r := s.records[id].(lastSeenAt := now);
      (State(s.nextPrune, s.records[id := r]), Some(r))
  }

  function Deleted(s: State, id: string): State {
    State(s.nextPrune, s.records - {id})
  }

  class Store {
    const ttls: Ttls
    var nextPrune: Time
    var records: map<string, Record>

    ghost function Snapshot(): State
      reads this
    {
      State(nextPrune, records)
    }

    constructor (ttl: int, idleTtl: int)
      ensures ttls == Ttls(ttl, idleTtl) && Snapshot() == EMPTY
    {
      ttls := Ttls(ttl, idleTtl);
      nextPrune, records := ZERO_TIME, map[];
    }

    /** `id` is what the random source gave, None when it failed; `now` is the clock
        reading taken before the lock, so it may be older than other operations'. */
    method Create(id: Option<string>, account: string, credentialId: string, credentialLabel: string, now: Time)
      returns (r: Option<Record>)
      modifies this
      ensures id.None? ==> r.None? && Snapshot() == old(Snapshot())
      ensures id.Some? ==>
                && r.Some? && r.value.id == id.value
                && r.value.account == account
                && r.value.credentialId == credentialId && r.value.credentialLabel == credentialLabel
                && r.value.createdAt == now && r.value.lastSeenAt == now && r.value.expiresAt == now + ttls.ttl
      ensures id.Some? ==> Snapshot() == Inserted(ttls, old(Snapshot()), r.value, now)
    {
      if id.None? {
        return None;
      }
      var record := Record(id.value, account, credentialId, credentialLabel, now, now, now + ttls.ttl);
      PruneExpired(now);
      records := records[id.value := record];
      return Some(record);
    }

    method Get(id: string, now: Time) returns (r: Option<Record>)
      modifies this
      ensures (Snapshot(), r) == Touched(ttls, old(Snapshot()), id, now)
    {
      r := TouchLocked(id, now);
    }

    method Touch(id: string, now: Time) returns (r: Option<Record>)
      modifies this
      ensures (Snapshot(), r) == Touched(ttls, old(Snapshot()), id, now)
    {
      r := TouchLocked(id, now);
    }

    method TouchLocked(id: string, now: Time) returns (r: Option<Record>)
      modifies this
      ensures (Snapshot(), r) == Touched(ttls, old(Snapshot()), id, now)
    {
      if id !in records {
        return None;
      }
      var record := records[id];
      if !(now < record.expiresAt) || now - record.lastSeenAt > ttls.idleTtl {
        records := records - {id};
        return None;
      }
      record := record.(lastSeenAt := now);
      records := records[id := record];
      return Some(record);
    }

    method Delete(id: string)
      modifies this
      ensures Snapshot() == Deleted(old(Snapshot()), id)
    {
      records := records - {id};
    }

    method PruneExpired(now: Time)
      modifies this
      ensures Snapshot() == Pruned(ttls, old(Snapshot()), now)
    {
      if records == map[] || (nextPrune != ZERO_TIME && now < nextPrune) {
        return;
      }
      ghost var was := records;
      var todo := records.Keys;
      while todo != {}
        invariant todo <= was.Keys && nextPrune == old(nextPrune)
        invariant records == map id | id in was && (id in todo || !Expired(ttls, was[id], now)) :: was[id]
        decreases todo
      {
        var id :| id in todo;
        if !(now < records[id].expiresAt) || now - records[id].lastSeenAt > ttls.idleTtl {
          records := records - {id};
        }
        todo := todo - {id};
      }
      nextPrune := now + if ttls.ttl < ttls.idleTtl then ttls.ttl else ttls.idleTtl;
    }
  }

  // ----- concurrent runs

  /** What the store's clients did, in lock order. `caller` says which client it was. */
  datatype Event =
    | Issued(record: Record)
    | Seen(id: string, at: Time, caller: nat)
    | Dropped(id: string)

  /** Create is two steps: the clock reading, and later the locked insertion. */
  datatype Action =
    | Tick(elapsed: nat)
    | ReadClock(thread: nat, id: string, account: string, credentialId: string, credentialLabel: string)
    | Insert(thread: nat)
    | Access(id: string, caller: nat)
    | Remove(id: string)

  datatype System = System(clock: Time, store: State, pending: map<nat, Record>, history: seq<Event>)

  ghost predicate EverIssued(h: seq<Event>, id: string) {
    exists i :: 0 <= i < |h| && h[i].Issued? && h[i].record.id == id
  }

  /** Random ids are fresh: none is drawn twice. */
  ghost predicate Unused(s: System, id: string) {
    !EverIssued(s.history, id) && forall t :: t in s.pending ==> s.pending[t].id != id
  }

  ghost predicate Enabled(s: System, a: Action) {
    match a
    case ReadClock(t, id, _, _, _) => t !in s.pending && Unused(s, id)
    case Insert(t) => t in s.pending
    case _ => true
  }

  /** One step; an action that is not enabled changes nothing. */
  ghost function Step(c: Ttls, s: System, a: Action): System {
    if !Enabled(s, a) then s
    else match a
      case Tick(d) => s.(clock := s.clock + d)
      case ReadClock(t, id, account, credentialId, credentialLabel) =>
        s.(pending := s.pending[t := Fresh(c, id, account, credentialId, credentialLabel, s.clock)])
      case Insert(t) =>
        var r := s.pending[t];
        s.(store := Inserted(c, s.store, r, r.createdAt),
           pending := s.pending - {t},
           history := s.history + [Issued(r)])
      case Access(id, caller) =>
        s.(store := Touched(c, s.store, id, s.clock).0,
           history := s.history + [Seen(id, s.clock, caller)])
      case Remove(id) =>
        s.(store := Deleted(s.store, id), history := s.history + [Dropped(id)])
  }

  ghost function Exec(c: Ttls, s: System, actions: seq<Action>): System {
    if actions == [] then s
    else Step(c, Exec(c, s, actions[..|actions| - 1]), actions[|actions| - 1])
  }

  lemma ExecAppend(c: Ttls, s: System, actions: seq<Action>, a: Action)
    ensures Exec(c, s, actions + [a]) == Step(c, Exec(c, s, actions), a)
  {
    assert (actions + [a])[..|actions|] == actions;
  }

  ghost function Start(clock: Time): System {
    System(clock, EMPTY, map[], [])
  }

  // ----- the simple definition of a live session

  /** Everything the history says about one id: the record issued, the times somebody
      looked the session up, and whether it was deleted. */
  datatype Life = Life(born: Record, seen: seq<Time>, deleted: bool)

  function LifeOf(h: seq<Event>, id: string): Option<Life> {
    if h == [] then None
    else
      var before := LifeOf(h[..|h| - 1], id);
      match h[|h| - 1]
      case Issued(r) => if r.id == id then Some(Life(r, [], false)) else before
      case Seen(x, at, _) =>
        if x == id && before.Some? then Some(before.value.(seen := before.value.seen + [at])) else before
      case Dropped(x) =>
        if x == id && before.Some? then Some(before.value.(deleted := true)) else before
  }

  /** No two consecutive times are more than `limit` apart. */
  predicate GapsWithin(limit: int, times: seq<Time>) {
    forall i :: 0 < i < |times| ==> times[i] - times[i - 1] <= limit
  }

  predicate LiveAt(c: Ttls, l: Life, now: Time) {
    && !l.deleted
    && now < l.born.createdAt + c.ttl
    && GapsWithin(c.idleTtl, [l.born.createdAt] + l.seen + [now])
  }

  /** A session is live when it was issued, never deleted, is younger than the absolute
      limit, and never went unseen for longer than the idle limit. */
  predicate Live(c: Ttls, h: seq<Event>, id: string, now: Time) {
    LifeOf(h, id).Some? && LiveAt(c, LifeOf(h, id).value, now)
  }

  // ----- the invariant

  function LastSeen(l: Life): Time {
    if l.seen == [] then l.born.createdAt else l.seen[|l.seen| - 1]
  }

  /** The record the store should hold for a life, if it still holds one. */
  function RecordOf(l: Life): Record {
    l.born.(lastSeenAt := LastSeen(l))
  }

  /** A life that has not ended by the last time it was seen. */
  ghost predicate Unbroken(c: Ttls, l: Life) {
    && !l.deleted
    && GapsWithin(c.idleTtl, [l.born.createdAt] + l.seen)
    && forall i :: 0 <= i < |l.seen| ==> l.seen[i] < l.born.expiresAt
  }

  ghost predicate Agrees(c: Ttls, s: System, id: string) {
    var l := LifeOf(s.history, id);
    if id in s.store.records
    then l.Some? && Unbroken(c, l.value) && s.store.records[id] == RecordOf(l.value)
    else l.Some? && Unbroken(c, l.value) ==> Expired(c, RecordOf(l.value), s.clock)
  }

  ghost predicate WellBorn(c: Ttls, r: Record, clock: Time) {
    r.lastSeenAt == r.createdAt && r.expiresAt == r.createdAt + c.ttl && r.createdAt <= clock
  }

  ghost predicate LifeInOrder(c: Ttls, s: System, id: string) {
    var l := LifeOf(s.history, id);
    && (l.Some? <==> EverIssued(s.history, id))
    && (l.Some? ==> l.value.born.id == id && WellBorn(c, l.value.born, s.clock))
    && (l.Some? ==> forall i :: 0 <= i < |l.value.seen| ==> l.value.seen[i] <= s.clock)
  }

  ghost predicate PendingInOrder(c: Ttls, s: System) {
    && (forall t :: t in s.pending ==> WellBorn(c, s.pending[t], s.clock) && !EverIssued(s.history, s.pending[t].id))
    && (forall t, u :: t in s.pending && u in s.pending && t != u ==> s.pending[t].id != s.pending[u].id)
  }

  ghost predicate Inv(c: Ttls, s: System) {
    && PendingInOrder(c, s)
    && (forall id :: LifeInOrder(c, s, id))
    && (forall id :: Agrees(c, s, id))
  }

  lemma IssuedAppend(h: seq<Event>, e: Event, id: string)
    ensures EverIssued(h + [e], id) <==> EverIssued(h, id) || (e.Issued? && e.record.id == id)
  {
    var all := h + [e];
    if EverIssued(h, id) {
      var i :| 0 <= i < |h| && h[i].Issued? && h[i].record.id == id;
      assert all[i] == h[i];
    }
    if e.Issued? && e.record.id == id {
      assert all[|h|] == e;
    }
  }

  lemma LifeAppend(h: seq<Event>, e: Event, id: string)
    ensures LifeOf(h + [e], id) ==
            match e
            case Issued(r) => if r.id == id then Some(Life(r, [], false)) else LifeOf(h, id)
            case Seen(x, at, _) =>
              if x == id && LifeOf(h, id).Some?
              then Some(LifeOf(h, id).value.(seen := LifeOf(h, id).value.seen + [at])) else LifeOf(h, id)
            case Dropped(x) =>
              if x == id && LifeOf(h, id).Some? then Some(LifeOf(h, id).value.(deleted := true)) else LifeOf(h, id)
  {
    assert (h + [e])[..|h|] == h;
  }

  /** A life seen once more is unbroken exactly when its record had not expired. */
  lemma SeenAgain(c: Ttls, l: Life, at: Time)
    requires l.born.expiresAt == l.born.createdAt + c.ttl
    ensures Unbroken(c, l.(seen := l.seen + [at])) <==> Unbroken(c, l) && !Expired(c, RecordOf(l), at)
  {
    var l' := l.(seen := l.seen + [at]);
    var ts, ts' := [l.born.createdAt] + l.seen, [l.born.createdAt] + l'.seen;
    assert ts' == ts + [at];
    assert ts[|ts| - 1] == LastSeen(l);
    assert forall i :: 0 <= i < |ts| ==> ts'[i] == ts[i];
    assert forall i :: 0 <= i < |l.seen| ==> l'.seen[i] == l.seen[i];
    assert l'.seen[|l.seen|] == at;
    if Unbroken(c, l') {
      assert ts'[|ts|] - ts'[|ts| - 1] <= c.idleTtl;
    }
  }

  lemma LiveMeansUnbroken(c: Ttls, l: Life, now: Time)
    requires l.born.expiresAt == l.born.createdAt + c.ttl
    requires forall i :: 0 <= i < |l.seen| ==> l.seen[i] <= now
    ensures LiveAt(c, l, now) <==> Unbroken(c, l) && !Expired(c, RecordOf(l), now)
  {
    SeenAgain(c, l, now);
    var l' := l.(seen := l.seen + [now]);
    assert [l.born.createdAt] + l.seen + [now] == [l.born.createdAt] + l'.seen;
    assert l'.seen[|l.seen|] == now;
    assert forall i :: 0 <= i < |l.seen| ==> l'.seen[i] == l.seen[i];
  }

  lemma AccessKeepsAgrees(c: Ttls, s: System, id: string, caller: nat, x: string)
    requires Inv(c, s)
    ensures Agrees(c, Step(c, s, Access(id, caller)), x)
  {
    assert LifeInOrder(c, s, x) && Agrees(c, s, x);
    LifeAppend(s.history, Seen(id, s.clock, caller), x);
    if x == id && LifeOf(s.history, id).Some? {
      SeenAgain(c, LifeOf(s.history, id).value, s.clock);
    }
  }

  lemma InsertKeepsAgrees(c: Ttls, s: System, t: nat, x: string)
    requires c.Valid() && Inv(c, s) && t in s.pending
    ensures Agrees(c, Step(c, s, Insert(t)), x)
  {
    assert LifeInOrder(c, s, x) && Agrees(c, s, x);
    LifeAppend(s.history, Issued(s.pending[t]), x);
  }

  lemma StepKeepsOrder(c: Ttls, s: System, a: Action, x: string)
    requires Inv(c, s) && Enabled(s, a)
    ensures LifeInOrder(c, Step(c, s, a), x)
  {
    assert LifeInOrder(c, s, x);
    match a
    case Insert(t) =>
      LifeAppend(s.history, Issued(s.pending[t]), x);
      IssuedAppend(s.history, Issued(s.pending[t]), x);
    case Access(id, caller) =>
      LifeAppend(s.history, Seen(id, s.clock, caller), x);
      IssuedAppend(s.history, Seen(id, s.clock, caller), x);
    case Remove(id) =>
      LifeAppend(s.history, Dropped(id), x);
      IssuedAppend(s.history, Dropped(id), x);
    case _ =>
  }

  lemma StepKeepsPending(c: Ttls, s: System, a: Action)
    requires Inv(c, s) && Enabled(s, a)
    ensures PendingInOrder(c, Step(c, s, a))
  {
    var s' := Step(c, s, a);
    forall t | t in s'.pending
      ensures WellBorn(c, s'.pending[t], s'.clock) && !EverIssued(s'.history, s'.pending[t].id)
    {
      match a
      case Insert(u) => IssuedAppend(s.history, Issued(s.pending[u]), s'.pending[t].id);
      case Access(id, caller) => IssuedAppend(s.history, Seen(id, s.clock, caller), s'.pending[t].id);
      case Remove(id) => IssuedAppend(s.history, Dropped(id), s'.pending[t].id);
      case _ =>
    }
  }

  lemma StepKeepsInv(c: Ttls, s: System, a: Action)
    requires c.Valid() && Inv(c, s)
    ensures Inv(c, Step(c, s, a))
  {
    if Enabled(s, a) {
      StepKeepsPending(c, s, a);
      var s' := Step(c, s, a);
      forall x ensures LifeInOrder(c, s', x) {
        StepKeepsOrder(c, s, a, x);
      }
      forall x ensures Agrees(c, s', x) {
        assert LifeInOrder(c, s, x) && Agrees(c, s, x);
        match a
        case Insert(t) => InsertKeepsAgrees(c, s, t, x);
        case Access(id, caller) => AccessKeepsAgrees(c, s, id, caller, x);
        case Remove(id) => LifeAppend(s.history, Dropped(id), x);
        case _ =>
      }
    }
  }

  lemma {:induction false} ExecKeepsInv(c: Ttls, s: System, actions: seq<Action>)
    requires c.Valid() && Inv(c, s)
    ensures Inv(c, Exec(c, s, actions))
  {
    if actions != [] {
      var n := |actions| - 1;
      ExecKeepsInv(c, s, actions[..n]);
      StepKeepsInv(c, Exec(c, s, actions[..n]), actions[n]);
    }
  }

  // ----- main results

  lemma AccessMatchesHistory(c: Ttls, s: System, id: string)
    requires Inv(c, s)
    ensures var r := Touched(c, s.store, id, s.clock).1;
            && (r.Some? <==> Live(c, s.history, id, s.clock))
            && (r.Some? ==>
                  var born := LifeOf(s.history, id).value.born;
                  r.value == born.(lastSeenAt := s.clock) && r.value.expiresAt == born.createdAt + c.ttl)
  {
    assert LifeInOrder(c, s, id) && Agrees(c, s, id);
    var l := LifeOf(s.history, id);
    if l.Some? {
      LiveMeansUnbroken(c, l.value, s.clock);
    }
  }

  /** In every concurrent run, looking a session up succeeds exactly when the history
      says it is live, and returns the record that was issued: only the time it was last
      seen ever changes. Pruning, stale or not, shows nowhere. */
  lemma {:induction false} GetMatchesHistory(c: Ttls, clock: Time, actions: seq<Action>, id: string)
    requires c.Valid()
    ensures var s := Exec(c, Start(clock), actions);
            var r := Touched(c, s.store, id, s.clock).1;
            && (r.Some? <==> Live(c, s.history, id, s.clock))
            && (r.Some? ==>
                  var born := LifeOf(s.history, id).value.born;
                  r.value == born.(lastSeenAt := s.clock) && r.value.expiresAt == born.createdAt + c.ttl)
  {
    StartHasInv(c, clock);
    ExecKeepsInv(c, Start(clock), actions);
    AccessMatchesHistory(c, Exec(c, Start(clock), actions), id);
  }

  lemma StartHasInv(c: Ttls, clock: Time)
    ensures Inv(c, Start(clock))
  {
  }

  /** A late gap cannot be mended: events at or after `now` keep a dead life dead. */
  lemma GapStays(limit: int, times: seq<Time>, now: Time, more: seq<Time>, later: Time)
    requires !GapsWithin(limit, times + [now]) && times != []
    requires now <= later && forall i :: 0 <= i < |more| ==> now <= more[i]
    ensures !GapsWithin(limit, times + more + [later])
  {
    var ts := times + [now];
    var i :| 0 < i < |ts| && ts[i] - ts[i - 1] > limit;
    var all := times + more + [later];
    assert all[i - 1] == ts[i - 1];
    assert all[i] >= ts[i];
  }

  /** A life as it is some time after `clock`: nothing recorded before is taken back. */
  ghost predicate Extends(c: Ttls, before: Life, after: Life, clock: Time) {
    && after.born == before.born
    && (before.deleted ==> after.deleted)
    && before.seen <= after.seen
    && forall i :: |before.seen| <= i < |after.seen| ==> clock <= after.seen[i]
  }

  lemma DeadStaysDead(c: Ttls, l: Life, now: Time, l': Life, later: Time)
    requires !LiveAt(c, l, now) && Extends(c, l, l', now) && now <= later
    ensures !LiveAt(c, l', later)
  {
    var more := l'.seen[|l.seen|..];
    var times := [l.born.createdAt] + l.seen;
    assert l'.seen == l.seen + more;
    assert [l'.born.createdAt] + l'.seen + [later] == times + more + [later];
    if !GapsWithin(c.idleTtl, times + [now]) {
      GapStays(c.idleTtl, times, now, more, later);
    }
  }

  lemma StepExtends(c: Ttls, s: System, a: Action, id: string)
    requires Inv(c, s) && LifeOf(s.history, id).Some?
    ensures var s' := Step(c, s, a);
            && s.clock <= s'.clock && LifeOf(s'.history, id).Some?
            && Extends(c, LifeOf(s.history, id).value, LifeOf(s'.history, id).value, s.clock)
  {
    assert LifeInOrder(c, s, id);
    if Enabled(s, a) {
      match a
      case Insert(t) => LifeAppend(s.history, Issued(s.pending[t]), id);
      case Access(x, caller) => LifeAppend(s.history, Seen(x, s.clock, caller), id);
      case Remove(x) => LifeAppend(s.history, Dropped(x), id);
      case _ =>
    }
  }

  lemma {:induction false} ExecExtends(c: Ttls, s: System, actions: seq<Action>, id: string)
    requires c.Valid() && Inv(c, s) && LifeOf(s.history, id).Some?
    ensures var s' := Exec(c, s, actions);
            && s.clock <= s'.clock && LifeOf(s'.history, id).Some?
            && Extends(c, LifeOf(s.history, id).value, LifeOf(s'.history, id).value, s.clock)
  {
    if actions != [] {
      var n := |actions| - 1;
      ExecExtends(c, s, actions[..n], id);
      ExecKeepsInv(c, s, actions[..n]);
      StepExtends(c, Exec(c, s, actions[..n]), actions[n], id);
    }
  }

  /** Failure is permanent: once a lookup of an issued session fails, every later lookup
      fails, whatever the other clients do in between. */
  lemma {:induction false} FailureIsPermanent(c: Ttls, clock: Time, actions: seq<Action>, more: seq<Action>, id: string)
    requires c.Valid()
    requires var s := Exec(c, Start(clock), actions);
             EverIssued(s.history, id) && Touched(c, s.store, id, s.clock).1.None?
    ensures var s' := Exec(c, Exec(c, Start(clock), actions), more);
            Touched(c, s'.store, id, s'.clock).1.None?
  {
    StartHasInv(c, clock);
    ExecKeepsInv(c, Start(clock), actions);
    var s := Exec(c, Start(clock), actions);
    assert LifeInOrder(c, s, id);
    AccessMatchesHistory(c, s, id);
    ExecExtends(c, s, more, id);
    ExecKeepsInv(c, s, more);
    var s' := Exec(c, s, more);
    DeadStaysDead(c, LifeOf(s.history, id).value, s.clock, LifeOf(s'.history, id).value, s'.clock);
    AccessMatchesHistory(c, s', id);
  }

  // ----- whose session it is

  /** What the action that drew an id asked for, dated by the clock it read. */
  ghost predicate AskedFor(c: Ttls, r: Record, a: Action, at: Time) {
    && a.ReadClock? && r.id == a.id
    && r.account == a.account && r.credentialId == a.credentialId && r.credentialLabel == a.credentialLabel
    && r.createdAt == at && r.expiresAt == at + c.ttl
  }

  /** The id was drawn, and whatever record goes by it, waiting or issued, is as asked for. */
  ghost predicate Carries(c: Ttls, s: System, a: Action, at: Time)
    requires a.ReadClock?
  {
    && (EverIssued(s.history, a.id) || exists t :: t in s.pending && s.pending[t].id == a.id)
    && (forall t :: t in s.pending && s.pending[t].id == a.id ==> AskedFor(c, s.pending[t], a, at))
    && (LifeOf(s.history, a.id).Some? ==> AskedFor(c, LifeOf(s.history, a.id).value.born, a, at))
  }

  lemma DrawCarries(c: Ttls, s: System, a: Action)
    requires Inv(c, s) && a.ReadClock? && Enabled(s, a)
    ensures Carries(c, Step(c, s, a), a, s.clock)
  {
    assert LifeInOrder(c, s, a.id);
    assert a.thread in Step(c, s, a).pending;
  }

  lemma StepCarries(c: Ttls, s: System, a: Action, at: Time, b: Action)
    requires Inv(c, s) && a.ReadClock? && Carries(c, s, a, at)
    ensures Carries(c, Step(c, s, b), a, at)
  {
    assert LifeInOrder(c, s, a.id);
    if Enabled(s, b) {
      match b
      case Insert(t) =>
        LifeAppend(s.history, Issued(s.pending[t]), a.id);
        IssuedAppend(s.history, Issued(s.pending[t]), a.id);
        InsertCarries(c, s, a, at, t);
      case Access(x, caller) =>
        LifeAppend(s.history, Seen(x, s.clock, caller), a.id);
        IssuedAppend(s.history, Seen(x, s.clock, caller), a.id);
      case Remove(x) =>
        LifeAppend(s.history, Dropped(x), a.id);
        IssuedAppend(s.history, Dropped(x), a.id);
      case ReadClock(t, _, _, _, _) => DrawAgainCarries(c, s, a, at, b);
      case Tick(_) =>
    }
  }

  lemma InsertCarries(c: Ttls, s: System, a: Action, at: Time, thread: nat)
    requires a.ReadClock? && Carries(c, s, a, at) && thread in s.pending
    ensures var s' := Step(c, s, Insert(thread));
            EverIssued(s'.history, a.id) || exists t :: t in s'.pending && s'.pending[t].id == a.id
  {
    IssuedAppend(s.history, Issued(s.pending[thread]), a.id);
    if !EverIssued(s.history, a.id) && s.pending[thread].id != a.id {
      var t :| t in s.pending && s.pending[t].id == a.id;
      assert t in Step(c, s, Insert(thread)).pending;
    }
  }

  /** No later creation draws the same id. */
  lemma DrawAgainCarries(c: Ttls, s: System, a: Action, at: Time, b: Action)
    requires a.ReadClock? && Carries(c, s, a, at) && b.ReadClock? && Enabled(s, b)
    ensures Carries(c, Step(c, s, b), a, at)
  {
    var s' := Step(c, s, b);
    if !EverIssued(s.history, a.id) {
      var t :| t in s.pending && s.pending[t].id == a.id;
      assert t in s'.pending && s'.pending[t] == s.pending[t];
    }
    assert b.id != a.id;
  }

  lemma {:induction false} ExecCarries(c: Ttls, clock: Time, actions: seq<Action>, k: nat)
    requires c.Valid() && k < |actions| && actions[k].ReadClock?
    requires Enabled(Exec(c, Start(clock), actions[..k]), actions[k])
    ensures Carries(c, Exec(c, Start(clock), actions), actions[k], Exec(c, Start(clock), actions[..k]).clock)
  {
    var n := |actions| - 1;
    StartHasInv(c, clock);
    ExecKeepsInv(c, Start(clock), actions[..n]);
    if k == n {
      DrawCarries(c, Exec(c, Start(clock), actions[..n]), actions[n]);
    } else {
      assert actions[..n][..k] == actions[..k];
      ExecCarries(c, clock, actions[..n], k);
      StepCarries(c, Exec(c, Start(clock), actions[..n]), actions[k], Exec(c, Start(clock), actions[..k]).clock, actions[n]);
    }
  }

  /** A session belongs to whom it was created for: in every run, a lookup that succeeds
      returns the account, credential and label given by the creation that drew the id,
      dated by the clock that this creation read. */
  lemma {:induction false} LookupReturnsCreation(c: Ttls, clock: Time, actions: seq<Action>, k: nat)
    requires c.Valid() && k < |actions| && actions[k].ReadClock?
    requires Enabled(Exec(c, Start(clock), actions[..k]), actions[k])
    requires var s := Exec(c, Start(clock), actions); Touched(c, s.store, actions[k].id, s.clock).1.Some?
    ensures var s, a := Exec(c, Start(clock), actions), actions[k];
            var r := Touched(c, s.store, a.id, s.clock).1.value;
            var at := Exec(c, Start(clock), actions[..k]).clock;
            && r.id == a.id && r.account == a.account
            && r.credentialId == a.credentialId && r.credentialLabel == a.credentialLabel
            && r.createdAt == at && r.expiresAt == at + c.ttl && r.lastSeenAt == s.clock
  {
    ExecCarries(c, clock, actions, k);
    GetMatchesHistory(c, clock, actions, actions[k].id);
  }

  // ----- stale clock readings

  /** Stale clock readings are harmless. Whenever a creation takes the lock, however old
      its reading, its prune drops only sessions that are already dead, moves the prune
      timer strictly forward, and leaves the outcome of looking up any other session as
      it was. */
  lemma {:induction false} StaleCreateIsSafe(c: Ttls, clock: Time, actions: seq<Action>, thread: nat, id: string)
    requires c.Valid() && thread in Exec(c, Start(clock), actions).pending
    requires id != Exec(c, Start(clock), actions).pending[thread].id
    ensures var s := Exec(c, Start(clock), actions);
            var s' := Step(c, s, Insert(thread));
            && (id in s.store.records && id !in s'.store.records ==> !Live(c, s.history, id, s.clock))
            && (PruneDue(s.store, s.pending[thread].createdAt) && s.store.nextPrune != ZERO_TIME ==>
                  s.store.nextPrune < s'.store.nextPrune)
            && Touched(c, s'.store, id, s.clock).1 == Touched(c, s.store, id, s.clock).1
            && (Live(c, s'.history, id, s.clock) <==> Live(c, s.history, id, s.clock))
  {
    StartHasInv(c, clock);
    ExecKeepsInv(c, Start(clock), actions);
    var s := Exec(c, Start(clock), actions);
    assert PendingInOrder(c, s);
    AccessMatchesHistory(c, s, id);
    LifeAppend(s.history, Issued(s.pending[thread]), id);
  }

  // ----- garbage

  /** The time a record's last chance ran out. */
  function Deadline(c: Ttls, r: Record): Time {
    var idle := r.lastSeenAt + c.idleTtl;
    if r.expiresAt < idle then r.expiresAt else idle
  }

  function LastReading(h: seq<Event>): Time {
    if h == [] then ZERO_TIME
    else match h[|h| - 1]
      case Issued(r) => r.createdAt
      case _ => LastReading(h[..|h| - 1])
  }

  /** Create calls take the lock in the order in which they read the clock. */
  ghost predicate InLockOrder(c: Ttls, s: System, actions: seq<Action>) {
    actions != [] ==>
      var n := |actions| - 1;
      var before := Exec(c, s, actions[..n]);
      && InLockOrder(c, s, actions[..n])
      && (actions[n].Insert? && actions[n].thread in before.pending ==>
            LastReading(before.history) <= before.pending[actions[n].thread].createdAt)
  }

  ghost predicate Tidy(c: Ttls, s: System) {
    s.store.nextPrune != ZERO_TIME ==>
      && s.store.nextPrune - c.Shorter() <= LastReading(s.history)
      && (forall id :: id in s.store.records ==> s.store.nextPrune - c.Shorter() <= Deadline(c, s.store.records[id]))
      && (forall id :: id in s.store.records ==> s.store.nextPrune - c.Shorter() < s.store.records[id].expiresAt)
  }

  lemma ReadingAppend(h: seq<Event>, e: Event)
    ensures LastReading(h + [e]) == if e.Issued? then e.record.createdAt else LastReading(h)
  {
    assert (h + [e])[..|h|] == h;
  }

  lemma StepStaysTidy(c: Ttls, s: System, a: Action)
    requires c.Valid() && Inv(c, s) && Tidy(c, s)
    requires a.Insert? && a.thread in s.pending ==> LastReading(s.history) <= s.pending[a.thread].createdAt
    ensures Tidy(c, Step(c, s, a))
    ensures a.Insert? && a.thread in s.pending ==>
              var s', now := Step(c, s, a), s.pending[a.thread].createdAt;
              s'.store.nextPrune == ZERO_TIME || now < s'.store.nextPrune
              || s'.store.records == map[s.pending[a.thread].id := s.pending[a.thread]]
  {
    if Enabled(s, a) {
      match a
      case Insert(t) => ReadingAppend(s.history, Issued(s.pending[t]));
      case Access(id, caller) =>
        ReadingAppend(s.history, Seen(id, s.clock, caller));
        AccessStaysTidy(c, s, id, caller);
      case Remove(id) => ReadingAppend(s.history, Dropped(id));
      case _ =>
    }
  }

  lemma AccessStaysTidy(c: Ttls, s: System, id: string, caller: nat)
    requires c.Valid() && Inv(c, s) && Tidy(c, s)
    ensures Tidy(c, Step(c, s, Access(id, caller)))
  {
    ReadingAppend(s.history, Seen(id, s.clock, caller));
    assert LifeInOrder(c, s, id) && Agrees(c, s, id);
    if id in s.store.records {
      var l := LifeOf(s.history, id).value;
      assert s.store.records[id].lastSeenAt <= s.clock;
    }
  }

  lemma {:induction false} ExecStaysTidy(c: Ttls, clock: Time, actions: seq<Action>)
    requires c.Valid() && InLockOrder(c, Start(clock), actions)
    ensures Tidy(c, Exec(c, Start(clock), actions))
  {
    if actions != [] {
      var n := |actions| - 1;
      ExecStaysTidy(c, clock, actions[..n]);
      StartHasInv(c, clock);
      ExecKeepsInv(c, Start(clock), actions[..n]);
      StepStaysTidy(c, Exec(c, Start(clock), actions[..n]), actions[n]);
    }
  }

  /** Lazy pruning bounds the garbage: when creations take the lock in the order of
      their clock readings, a dead record still in the map after a creation has been dead
      for less than the shorter of the two limits. */
  lemma {:induction false} GarbageIsYoung(c: Ttls, clock: Time, actions: seq<Action>, thread: nat, id: string)
    requires c.Valid() && clock > ZERO_TIME && InLockOrder(c, Start(clock), actions + [Insert(thread)])
    requires var s := Exec(c, Start(clock), actions);
             && thread in s.pending
             && id in Step(c, s, Insert(thread)).store.records
             && Expired(c, Step(c, s, Insert(thread)).store.records[id], s.pending[thread].createdAt)
    ensures var s := Exec(c, Start(clock), actions);
            var r := Step(c, s, Insert(thread)).store.records[id];
            var since := if r.expiresAt < r.lastSeenAt + c.idleTtl then r.expiresAt else r.lastSeenAt + c.idleTtl;
            && s.pending[thread].createdAt - since < c.ttl
            && s.pending[thread].createdAt - since < c.idleTtl
  {
    assert (actions + [Insert(thread)])[..|actions|] == actions;
    ExecStaysTidy(c, clock, actions);
    StartHasInv(c, clock);
    ExecKeepsInv(c, Start(clock), actions);
    StepStaysTidy(c, Exec(c, Start(clock), actions), Insert(thread));
  }
}
