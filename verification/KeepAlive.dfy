/** The keep-alive loop of an open play connection, run against the session store while
    any number of other clients use it. */
module KeepAlive {
  import opened Clock
  import opened Sessions
  import opened Wrappers

  /** The connection's configured ping interval and ping timeout. */
  datatype Pace = Pace(interval: nat, timeout: nat)

  /** The loop of one connection: the session it keeps alive, the time it started, the
      time of its last touch (or of the start), and whether it is still looping. */
  datatype Loop = Loop(conn: nat, id: string, started: Time, last: Time, touched: bool, running: bool)

  datatype World = World(sys: System, loop: Loop)

  /** A ping either succeeds and is followed by a touch of the session, or ends the loop. */
  datatype Move =
    | Other(a: Action)
    | Beat
    | PingFails

  ghost function Next(c: Ttls, w: World, m: Move): World {
    match m
    case Other(a) => w.(sys := Step(c, w.sys, a))
    case PingFails => w.(loop := w.loop.(running := false))
    case Beat =>
      if !w.loop.running then w
      else
        var found := Touched(c, w.sys.store, w.loop.id, w.sys.clock).1.Some?;
        World(Step(c, w.sys, Access(w.loop.id, w.loop.conn)),
              w.loop.(last := w.sys.clock, touched := true, running := found))
  }

  ghost function Play(c: Ttls, w: World, moves: seq<Move>): World {
    if moves == [] then w
    else Next(c, Play(c, w, moves[..|moves| - 1]), moves[|moves| - 1])
  }

  /** Each round of the loop takes at most one tick wait and one ping. */
  ghost predicate OnTime(p: Pace, w: World) {
    w.loop.running ==> w.sys.clock - w.loop.last <= p.interval + p.timeout
  }

  ghost predicate AlwaysOnTime(c: Ttls, p: Pace, w: World, moves: seq<Move>) {
    && OnTime(p, Play(c, w, moves))
    && (moves != [] ==> AlwaysOnTime(c, p, w, moves[..|moves| - 1]))
  }

  /** A connection whose loop starts now, on a session that some earlier creation issued. */
  ghost predicate Opening(c: Ttls, w: World) {
    && Inv(c, w.sys)
    && LifeOf(w.sys.history, w.loop.id).Some?
    && w.loop.running && !w.loop.touched
    && w.loop.started == w.loop.last == w.sys.clock
  }

  function ExpiryOf(h: seq<Event>, id: string): Time
    requires LifeOf(h, id).Some?
  {
    LifeOf(h, id).value.born.expiresAt
  }

  function Later(a: Time, b: Time): Time { if a < b then b else a }

  lemma {:induction false} PlayKeepsSystem(c: Ttls, w: World, moves: seq<Move>)
    requires c.Valid() && Inv(c, w.sys) && LifeOf(w.sys.history, w.loop.id).Some?
    ensures var w' := Play(c, w, moves);
            && Inv(c, w'.sys) && w.sys.clock <= w'.sys.clock
            && w'.loop.id == w.loop.id && w'.loop.conn == w.loop.conn && w'.loop.started == w.loop.started
            && LifeOf(w'.sys.history, w.loop.id).Some?
            && LifeOf(w'.sys.history, w.loop.id).value.born == LifeOf(w.sys.history, w.loop.id).value.born
  {
    if moves != [] {
      var n := |moves| - 1;
      PlayKeepsSystem(c, w, moves[..n]);
      var v := Play(c, w, moves[..n]);
      match moves[n]
      case Other(a) =>
        StepKeepsInv(c, v.sys, a);
        StepExtends(c, v.sys, a, w.loop.id);
      case Beat =>
        StepKeepsInv(c, v.sys, Access(w.loop.id, w.loop.conn));
        StepExtends(c, v.sys, Access(w.loop.id, w.loop.conn), w.loop.id);
      case PingFails =>
    }
  }

  /** A running loop's last touch was before the session's absolute expiry. */
  lemma {:induction false} LastTouchBeforeExpiry(c: Ttls, w: World, moves: seq<Move>)
    requires c.Valid() && Opening(c, w)
    ensures var w' := Play(c, w, moves);
            && w'.loop.last <= w'.sys.clock
            && LifeOf(w'.sys.history, w.loop.id).Some?
            && (w'.loop.running ==>
                  w'.loop.last == w.loop.started || w'.loop.last < ExpiryOf(w'.sys.history, w.loop.id))
  {
    PlayKeepsSystem(c, w, moves);
    if moves != [] {
      var n := |moves| - 1;
      LastTouchBeforeExpiry(c, w, moves[..n]);
      PlayKeepsSystem(c, w, moves[..n]);
      var v := Play(c, w, moves[..n]);
      if moves[n].Beat? && v.loop.running {
        AccessMatchesHistory(c, v.sys, w.loop.id);
        assert LifeInOrder(c, v.sys, w.loop.id);
      }
      if moves[n].Other? {
        StepExtends(c, v.sys, moves[n].a, w.loop.id);
      }
    }
  }

  /** The proxy cannot outlive its session: however often it touches, a loop that is
      still running is at most one tick wait and one ping past the session's absolute
      expiry, or past its own start when it started later than that. */
  lemma {:induction false} LoopEndsByExpiry(c: Ttls, p: Pace, w: World, moves: seq<Move>)
    requires c.Valid() && Opening(c, w) && AlwaysOnTime(c, p, w, moves)
    ensures var w' := Play(c, w, moves);
            && LifeOf(w'.sys.history, w.loop.id).Some?
            && ExpiryOf(w'.sys.history, w.loop.id) == ExpiryOf(w.sys.history, w.loop.id)
            && (w'.loop.running ==>
                  w'.sys.clock <= Later(w.loop.started, ExpiryOf(w.sys.history, w.loop.id)) + p.interval + p.timeout)
  {
    PlayKeepsSystem(c, w, moves);
    LastTouchBeforeExpiry(c, w, moves);
  }

  /** Every on-time run of the loop is over by one tick wait and one ping after the
      session's absolute expiry. */
  ghost predicate OverByExpiry(c: Ttls, p: Pace, w: World)
    requires LifeOf(w.sys.history, w.loop.id).Some?
  {
    forall moves :: AlwaysOnTime(c, p, w, moves) && Play(c, w, moves).loop.running ==>
      Play(c, w, moves).sys.clock <= ExpiryOf(w.sys.history, w.loop.id) + p.interval + p.timeout
  }

  /** The expiry alone bounds the loop exactly when the loop did not start after it: the
      session may expire while Java is still being asked for its game session, and then
      the first tick is yet to come. */
  lemma {:induction false} ExpiryBoundIff(c: Ttls, p: Pace, w: World)
    requires c.Valid() && Opening(c, w)
    ensures OverByExpiry(c, p, w) <==> w.loop.started <= ExpiryOf(w.sys.history, w.loop.id)
  {
    if w.loop.started <= ExpiryOf(w.sys.history, w.loop.id) {
      forall moves | AlwaysOnTime(c, p, w, moves) && Play(c, w, moves).loop.running
        ensures Play(c, w, moves).sys.clock <= ExpiryOf(w.sys.history, w.loop.id) + p.interval + p.timeout
      {
        LoopEndsByExpiry(c, p, w, moves);
      }
    } else {
      var idle := [Other(Tick(p.interval + p.timeout))];
      assert idle[..0] == [] && Play(c, w, idle[..0]) == w;
      assert AlwaysOnTime(c, p, w, idle[..0]) && AlwaysOnTime(c, p, w, idle);
      assert Play(c, w, idle).loop.running;
    }
  }

  /** The source's own way to get there, with a lifetime of 5: a session is created and
      admitted at time 1, and the handler waits for Java until time 10. */
  lemma {:induction false} LateStartOutlivesExpiry(p: Pace)
    ensures var c := Ttls(5, 100);
            var sys := Exec(c, Start(1), [ReadClock(0, "s", "a", "k", "n"), Insert(0), Access("s", 0), Tick(9)]);
            var w := World(sys, Loop(0, "s", sys.clock, sys.clock, false, true));
            Opening(c, w) && w.loop.started > ExpiryOf(w.sys.history, "s") && !OverByExpiry(c, p, w)
  {
    var c := Ttls(5, 100);
    var r := Fresh(c, "s", "a", "k", "n", 1);
    var a1, a2, a3, a4 := ReadClock(0, "s", "a", "k", "n"), Insert(0), Access("s", 0), Tick(9);
    var s1 := System(1, EMPTY, map[0 := r], []);
    ExecAppend(c, Start(1), [], a1);
    assert Exec(c, Start(1), [a1]) == s1 by { assert [] + [a1] == [a1]; }
    ExecAppend(c, Start(1), [a1], a2);
    var s2 := Exec(c, Start(1), [a1, a2]);
    assert s2 == Step(c, s1, a2) by { assert [a1] + [a2] == [a1, a2]; }
    assert s2.history == [Issued(r)];
    ExecAppend(c, Start(1), [a1, a2], a3);
    var s3 := Exec(c, Start(1), [a1, a2, a3]);
    assert s3 == Step(c, s2, a3) by { assert [a1, a2] + [a3] == [a1, a2, a3]; }
    ExecAppend(c, Start(1), [a1, a2, a3], a4);
    var actions := [a1, a2, a3, a4];
    var sys := Exec(c, Start(1), actions);
    assert sys == Step(c, s3, a4) by { assert [a1, a2, a3] + [a4] == actions; }
    LifeAppend([], Issued(r), "s");
    LifeAppend([Issued(r)], Seen("s", 1, 0), "s");
    assert sys.clock == 10 && sys.history == [Issued(r)] + [Seen("s", 1, 0)];
    assert [] + [Issued(r)] == [Issued(r)];
    StartHasInv(c, 1);
    ExecKeepsInv(c, Start(1), actions);
    var w := World(sys, Loop(0, "s", sys.clock, sys.clock, false, true));
    ExpiryBoundIff(c, p, w);
  }

  // ----- what ends the loop

  /** A round goes on exactly when the session it touches is live, and is then seen. */
  lemma {:induction false} BeatGoesOnIff(c: Ttls, w: World, moves: seq<Move>)
    requires c.Valid() && Opening(c, w) && Play(c, w, moves).loop.running
    ensures var v := Play(c, w, moves);
            var v' := Play(c, w, moves + [Beat]);
            && (v'.loop.running <==> Live(c, v.sys.history, w.loop.id, v.sys.clock))
            && v'.sys.history == v.sys.history + [Seen(w.loop.id, v.sys.clock, w.loop.conn)]
            && v'.loop.last == v.sys.clock
  {
    assert (moves + [Beat])[..|moves|] == moves;
    PlayKeepsSystem(c, w, moves);
    AccessMatchesHistory(c, Play(c, w, moves).sys, w.loop.id);
  }

  /** A ping that fails ends the loop for good, and the session is not touched for it. */
  lemma {:induction false} PingFailureEnds(c: Ttls, w: World, moves: seq<Move>, more: seq<Move>)
    ensures var v := Play(c, w, moves);
            var v' := Play(c, w, moves + [PingFails]);
            v'.sys == v.sys && !v'.loop.running
    ensures Play(c, w, moves + [PingFails] + more).loop == Play(c, w, moves).loop.(running := false)
  {
    assert (moves + [PingFails])[..|moves|] == moves;
    StoppedStays(c, w, moves + [PingFails], more);
  }

  lemma {:induction false} StoppedStays(c: Ttls, w: World, moves: seq<Move>, more: seq<Move>)
    requires !Play(c, w, moves).loop.running
    ensures Play(c, w, moves + more).loop == Play(c, w, moves).loop
  {
    if more == [] {
      assert moves + more == moves;
    } else {
      var n := |more| - 1;
      StoppedStays(c, w, moves, more[..n]);
      assert (moves + more)[..|moves + more| - 1] == moves + more[..n];
    }
  }

  // ----- an attended session

  /** The handler's lookup admitted the connection at time `admitted`; nobody deletes the
      session, every ping succeeds, and the first touch comes within the idle limit of
      the admission. */
  ghost predicate Attended(c: Ttls, w: World, admitted: Time, moves: seq<Move>) {
    && (var w' := Play(c, w, moves); !w'.loop.touched ==> w'.sys.clock - admitted <= c.idleTtl)
    && (moves != [] ==>
          && moves[|moves| - 1] != PingFails
          && moves[|moves| - 1] != Other(Remove(w.loop.id))
          && Attended(c, w, admitted, moves[..|moves| - 1]))
  }

  /** The session was seen at or after the admission and at or after the loop's last
      touch, and had not died when it was last seen. */
  ghost predicate Kept(c: Ttls, w: World, admitted: Time) {
    var l := LifeOf(w.sys.history, w.loop.id);
    && l.Some? && !l.value.deleted
    && Later(admitted, if w.loop.touched then w.loop.last else admitted) <= LastSeen(l.value)
    && (w.sys.clock < l.value.born.expiresAt ==> Unbroken(c, l.value) && w.loop.running)
  }

  lemma KeptIsLive(c: Ttls, p: Pace, w: World, admitted: Time)
    requires Inv(c, w.sys) && Kept(c, w, admitted) && OnTime(p, w)
    requires p.interval + p.timeout <= c.idleTtl
    requires !w.loop.touched ==> w.sys.clock - admitted <= c.idleTtl
    ensures w.sys.clock < ExpiryOf(w.sys.history, w.loop.id) ==>
              !Expired(c, RecordOf(LifeOf(w.sys.history, w.loop.id).value), w.sys.clock)
    ensures Live(c, w.sys.history, w.loop.id, w.sys.clock) <==>
              w.sys.clock < ExpiryOf(w.sys.history, w.loop.id)
  {
    assert LifeInOrder(c, w.sys, w.loop.id);
    LiveMeansUnbroken(c, LifeOf(w.sys.history, w.loop.id).value, w.sys.clock);
  }

  lemma SeenKeepsKept(c: Ttls, p: Pace, w: World, admitted: Time, w': World, caller: nat)
    requires Inv(c, w.sys) && Kept(c, w, admitted) && OnTime(p, w)
    requires p.interval + p.timeout <= c.idleTtl && admitted <= w.sys.clock && w.loop.last <= w.sys.clock
    requires !w.loop.touched ==> w.sys.clock - admitted <= c.idleTtl
    requires w'.sys == Step(c, w.sys, Access(w.loop.id, caller)) && w'.loop.id == w.loop.id
    requires w'.loop.last <= w.sys.clock
    requires w.sys.clock < ExpiryOf(w.sys.history, w.loop.id) ==> w'.loop.running
    ensures Kept(c, w', admitted)
  {
    assert LifeInOrder(c, w.sys, w.loop.id);
    LifeAppend(w.sys.history, Seen(w.loop.id, w.sys.clock, caller), w.loop.id);
    KeptIsLive(c, p, w, admitted);
    SeenAgain(c, LifeOf(w.sys.history, w.loop.id).value, w.sys.clock);
  }

  lemma MoveKeepsKept(c: Ttls, p: Pace, w: World, admitted: Time, m: Move)
    requires c.Valid() && Inv(c, w.sys) && Kept(c, w, admitted) && OnTime(p, w)
    requires p.interval + p.timeout <= c.idleTtl && admitted <= w.sys.clock && w.loop.last <= w.sys.clock
    requires !w.loop.touched ==> w.sys.clock - admitted <= c.idleTtl
    requires m != PingFails && m != Other(Remove(w.loop.id))
    ensures Kept(c, Next(c, w, m), admitted)
  {
    var id := w.loop.id;
    var w' := Next(c, w, m);
    assert LifeInOrder(c, w.sys, id);
    match m
    case Beat =>
      if w.loop.running {
        KeptIsLive(c, p, w, admitted);
        AccessMatchesHistory(c, w.sys, id);
        SeenKeepsKept(c, p, w, admitted, w', w.loop.conn);
      }
    case Other(a) =>
      StepExtends(c, w.sys, a, id);
      if a == Access(id, if a.Access? then a.caller else 0) {
        SeenKeepsKept(c, p, w, admitted, w', a.caller);
      } else if Enabled(w.sys, a) {
        match a
        case Insert(t) => LifeAppend(w.sys.history, Issued(w.sys.pending[t]), id);
        case Access(x, caller) => LifeAppend(w.sys.history, Seen(x, w.sys.clock, caller), id);
        case Remove(x) => LifeAppend(w.sys.history, Dropped(x), id);
        case _ =>
      }
  }

  lemma {:induction false} PlayKeepsKept(c: Ttls, p: Pace, w: World, admitted: Time, moves: seq<Move>)
    requires c.Valid() && Opening(c, w) && Kept(c, w, admitted) && admitted <= w.sys.clock
    requires AlwaysOnTime(c, p, w, moves) && Attended(c, w, admitted, moves)
    requires p.interval + p.timeout <= c.idleTtl
    ensures Kept(c, Play(c, w, moves), admitted)
  {
    if moves != [] {
      var n := |moves| - 1;
      PlayKeepsKept(c, p, w, admitted, moves[..n]);
      PlayKeepsSystem(c, w, moves[..n]);
      LastTouchBeforeExpiry(c, w, moves[..n]);
      MoveKeepsKept(c, p, Play(c, w, moves[..n]), admitted, moves[n]);
    }
  }

  /** While a connection is attended, its session is never lost to the idle limit: at
      every moment of the run, whoever else touches the store, the session is live, the
      loop is running and a lookup succeeds, exactly until the absolute expiry. */
  lemma {:induction false} NeverIdleExpired(c: Ttls, p: Pace, w: World, admitted: Time, moves: seq<Move>)
    requires c.Valid() && Opening(c, w) && p.interval + p.timeout <= c.idleTtl
    requires Live(c, w.sys.history, w.loop.id, w.sys.clock)
    requires admitted <= LastSeen(LifeOf(w.sys.history, w.loop.id).value) <= w.sys.clock
    requires AlwaysOnTime(c, p, w, moves) && Attended(c, w, admitted, moves)
    ensures var w' := Play(c, w, moves);
            && (Live(c, w'.sys.history, w.loop.id, w'.sys.clock) <==>
                  w'.sys.clock < ExpiryOf(w.sys.history, w.loop.id))
            && (Touched(c, w'.sys.store, w.loop.id, w'.sys.clock).1.Some? <==>
                  w'.sys.clock < ExpiryOf(w.sys.history, w.loop.id))
            && (w'.sys.clock < ExpiryOf(w.sys.history, w.loop.id) ==> w'.loop.running)
  {
    assert LifeInOrder(c, w.sys, w.loop.id);
    LiveMeansUnbroken(c, LifeOf(w.sys.history, w.loop.id).value, w.sys.clock);
    PlayKeepsKept(c, p, w, admitted, moves);
    PlayKeepsSystem(c, w, moves);
    KeptIsLive(c, p, Play(c, w, moves), admitted);
    AccessMatchesHistory(c, Play(c, w, moves).sys, w.loop.id);
  }
}
