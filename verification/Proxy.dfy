/** The play proxy: a handler and three goroutines that share an error channel of capacity
    three, a cancellable context and two connections. */
module Proxy {
  import opened Wrappers

  datatype Role = BrowserToJava | JavaToBrowser | KeepAlive
  const CAPACITY := 3

  /** How the shared context ended: through the request it derives from, or through the
      handler's own derived cancel. The first cancellation decides. */
  datatype Context = Active | ParentCancelled | DerivedCancelled

  /** The errors a goroutine can end with. */
  datatype Kind = Canceled | NormalClosure | SessionExpired | HeartbeatFailed | Violation

  /** An error carries the circumstances in which it arose: the state of the context, and
      whether the handler had begun to close the connections. */
  datatype Error = Error(kind: Kind, context: Context, closing: bool) {
    /** The proxy's own shutdown can be behind the error. */
    predicate Secondary() { context == DerivedCancelled || closing }
  }

  /** The status the browser's connection is closed with; the last is that of the deferred
      close, which comes second. */
  datatype Status = Normal | PolicyExpired | GoingAway | PolicyViolation | InternalError

  function CloseStatus(e: Error): Status {
    if e.kind == Canceled || e.kind == NormalClosure then Normal
    else if e.kind == SessionExpired then PolicyExpired
    else if e.kind == HeartbeatFailed then GoingAway
    else PolicyViolation
  }

  /** Where a goroutine is: at the blocking operation its loop starts with, at the
      operations that follow, sending its error, cancelling, or finished. */
  datatype Place =
    | Waiting
    | Forwarding
    | Touching
    | Sending(error: Error)
    | Cancelling
    | Finished
  {
    predicate Working() { Waiting? || Forwarding? || Touching? }
    function Sent(): nat { if Cancelling? || Finished? then 1 else 0 }
  }

  datatype Places = Places(browserToJava: Place, javaToBrowser: Place, keepAlive: Place) {
    function At(r: Role): Place {
      match r
      case BrowserToJava => browserToJava
      case JavaToBrowser => javaToBrowser
      case KeepAlive => keepAlive
    }

    function Put(r: Role, p: Place): Places {
      match r
      case BrowserToJava => this.(browserToJava := p)
      case JavaToBrowser => this.(javaToBrowser := p)
      case KeepAlive => this.(keepAlive := p)
    }
  }

  datatype Handler =
    | Receiving
    | Closing(error: Error)
    | Cancelling(error: Error)
    | ClosingJava(error: Error)
    | Returned(error: Error)

  /** `sent` remembers every error put on the channel, in order; the first `received` of
      them have left it. `buffered` lines have arrived from Java and were not read yet; the
      reader may hand out those it holds even after the connection is closed. `seen` is the
      status that the browser's connection was closed with. */
  datatype State = State(
    context: Context, places: Places, handler: Handler, sent: seq<Error>, received: nat,
    browserClosed: bool, javaClosed: bool, buffered: nat, seen: Option<Status>)

  ghost predicate Initial(s: State) {
    && s.context == Active && s.handler == Receiving && s.sent == [] && s.received == 0
    && !s.browserClosed && !s.javaClosed && s.seen == None && s.places == Places(Waiting, Waiting, Waiting)
  }

  /** The operations that watch the context: the browser read and write, and the select. */
  predicate WatchesContext(r: Role, p: Place) {
    if r == JavaToBrowser then p.Forwarding? else p.Waiting?
  }

  /** The kinds of error the goroutine's current operation can return. Apart from a
      cancellation, an operation may fail at any time: a peer goes away, a frame is refused,
      a ping is not answered. */
  predicate CanFail(s: State, r: Role, kind: Kind) {
    var p := s.places.At(r);
    && p.Working()
    && (kind == Canceled ==> s.context != Active && WatchesContext(r, p))
    && (kind == SessionExpired ==> r == KeepAlive && p.Touching?)
    && (kind == HeartbeatFailed ==> r == KeepAlive && p.Forwarding?)
    && (kind == NormalClosure || kind == Violation ==> r != KeepAlive)
  }

  /** Whether the current operation can succeed. After a close or a cancellation the
      operations on that connection fail; but the Java reader may first hand out what it
      holds, and the keep-alive select may still choose a tick that is ready. */
  predicate CanProceed(s: State, r: Role) {
    match s.places.At(r)
    case Waiting =>
      if r == KeepAlive then true
      else if r == BrowserToJava then !s.browserClosed && s.context == Active
      else s.buffered > 0
    case Forwarding =>
      if r == BrowserToJava then !s.javaClosed else !s.browserClosed && s.context == Active
    case Touching => true
    case _ => false
  }

  /** Whether the current operation returns an error whatever its peer does: the context it
      watches has ended, or its connection was closed on this side and nothing is left. */
  predicate MustFail(s: State, r: Role) {
    match s.places.At(r)
    case Waiting =>
      if r == KeepAlive then s.context != Active
      else if r == BrowserToJava then s.browserClosed || s.context != Active
      else s.javaClosed && s.buffered == 0
    case Forwarding =>
      if r == BrowserToJava then s.javaClosed else s.browserClosed || s.context != Active
    case _ => false
  }

  function After(r: Role, p: Place): Place {
    if p.Waiting? then Forwarding else if p.Forwarding? && r == KeepAlive then Touching else Waiting
  }

  datatype Step =
    | ParentCancels
    | JavaSends
    | Proceeds(role: Role)
    | SkipsLocalFrame
    | Fails(role: Role, kind: Kind)
    | Sends(role: Role)
    | Cancels(role: Role)
    | HandlerReceives
    | HandlerUnwinds(held: nat)

  predicate Enabled(s: State, step: Step) {
    match step
    case ParentCancels => s.context == Active
    case JavaSends => !s.javaClosed
    case Proceeds(r) => CanProceed(s, r)
    case SkipsLocalFrame => s.places.browserToJava.Waiting? && CanProceed(s, BrowserToJava)
    case Fails(r, kind) => CanFail(s, r, kind)
    case Sends(r) => s.places.At(r).Sending? && |s.sent| - s.received < CAPACITY
    case Cancels(r) => s.places.At(r).Cancelling?
    case HandlerReceives => s.handler.Receiving? && s.received < |s.sent|
    case HandlerUnwinds(held) => !s.handler.Receiving? && !s.handler.Returned? && held <= s.buffered
  }

  /** The goroutine that takes the step; none for the handler and the environment. */
  predicate By(step: Step, r: Role) {
    match step
    case Proceeds(q) => q == r
    case SkipsLocalFrame => r == BrowserToJava
    case Fails(q, _) => q == r
    case Sends(q) => q == r
    case Cancels(q) => q == r
    case _ => false
  }

  /** The steps of goroutines that need nothing from outside: an operation that is bound to
      fail, a touch of the session store, a line already there, a send, a cancel. All other
      operations may block for ever. */
  predicate Forced(s: State, step: Step) {
    && Enabled(s, step)
    && match step
       case Fails(r, _) => MustFail(s, r)
       case Proceeds(r) => s.places.At(r).Touching? || (r == JavaToBrowser && s.places.At(r).Waiting?)
       case Sends(_) => true
       case Cancels(_) => true
       case _ => false
  }

  function Derived(c: Context): Context {
    if c == Active then DerivedCancelled else c
  }

  /** Closing the browser's connection; only the first close sends a status. */
  function Closed(s: State, status: Status): State {
    s.(browserClosed := true, seen := if s.seen.None? then Some(status) else s.seen)
  }

  function Next(s: State, step: Step): State
    requires Enabled(s, step)
  {
    match step
    case ParentCancels => s.(context := ParentCancelled)
    case JavaSends => s.(buffered := s.buffered + 1)
    case Proceeds(r) =>
      var drains := r == JavaToBrowser && s.places.At(r).Waiting?;
      s.(places := s.places.Put(r, After(r, s.places.At(r))),
         buffered := if drains then s.buffered - 1 else s.buffered)
    case SkipsLocalFrame => s
    case Fails(r, kind) => s.(places := s.places.Put(r, Sending(Error(kind, s.context, s.browserClosed))))
    case Sends(r) => s.(sent := s.sent + [s.places.At(r).error], places := s.places.Put(r, Place.Cancelling))
    case Cancels(r) => s.(context := Derived(s.context), places := s.places.Put(r, Finished))
    case HandlerReceives => s.(handler := Closing(s.sent[s.received]), received := s.received + 1)
    case HandlerUnwinds(held) =>
      // the websocket is closed with a status; then the deferred calls run: cancel, close
      // the websocket again, close the Java connection, whose reader keeps what it holds
      match s.handler
      case Closing(e) => Closed(s, CloseStatus(e)).(handler := Handler.Cancelling(e))
      case Cancelling(e) => s.(context := Derived(s.context), handler := ClosingJava(e))
      case ClosingJava(e) => Closed(s, InternalError).(javaClosed := true, handler := Returned(e), buffered := held)
      case _ => s
  }

  ghost predicate Behavior(states: seq<State>) {
    && |states| > 0 && Initial(states[0])
    && forall i :: 0 <= i < |states| - 1 ==> Follows(states[i], states[i + 1])
  }

  ghost predicate Follows(s: State, s': State) {
    exists step :: Enabled(s, step) && s' == Next(s, step)
  }

  // ----- the invariant

  /** The derived cancel and the closes only ever follow a send, so an error they can be
      behind is never the first on the channel; and each goroutine sends at most once. */
  ghost predicate Inv(s: State) {
    && |s.sent| == s.places.browserToJava.Sent() + s.places.javaToBrowser.Sent() + s.places.keepAlive.Sent()
    && (s.context == DerivedCancelled || s.browserClosed ==> s.sent != [])
    && (forall r :: s.places.At(r).Sending? ==> ErrorOk(s, s.places.At(r).error))
    && (forall i :: 0 <= i < |s.sent| ==> ErrorOk(s, s.sent[i]))
    && (s.sent != [] ==> !s.sent[0].Secondary())
    && HandlerOk(s)
  }

  ghost predicate ErrorOk(s: State, e: Error) {
    && (e.kind == Canceled ==> e.context != Active)
    && (e.context == ParentCancelled ==> s.context == ParentCancelled)
    && (e.Secondary() ==> s.sent != [])
  }

  ghost predicate HandlerOk(s: State) {
    && s.received <= |s.sent|
    && (s.handler.Receiving? <==> s.received == 0)
    && (!s.handler.Receiving? ==> s.received == 1 && s.handler.error == s.sent[0])
    && (s.browserClosed <==> !s.handler.Receiving? && !s.handler.Closing?)
    && (s.handler.ClosingJava? || s.handler.Returned? ==> s.context != Active)
    && (s.javaClosed <==> s.handler.Returned?)
    && s.seen == (if s.browserClosed then Some(CloseStatus(s.handler.error)) else None)
  }

  lemma SendsAreCounted(s: State, r: Role)
    requires Inv(s) && !s.places.At(r).Cancelling? && !s.places.At(r).Finished?
    ensures |s.sent| < CAPACITY
  {
  }

  lemma HandlerKeepsInv(s: State, step: Step, s': State)
    requires Inv(s) && Enabled(s, step) && s' == Next(s, step)
    requires step.HandlerReceives? || step.HandlerUnwinds? || step.ParentCancels? || step.JavaSends?
    ensures Inv(s')
  {
    forall r | s'.places.At(r).Sending? ensures ErrorOk(s', s'.places.At(r).error) {
      assert ErrorOk(s, s.places.At(r).error);
    }
  }

  lemma SendKeepsInv(s: State, r: Role, s': State)
    requires Inv(s) && Enabled(s, Sends(r)) && s' == Next(s, Sends(r))
    ensures Inv(s')
  {
    assert ErrorOk(s, s.places.At(r).error);
    forall q | s'.places.At(q).Sending? ensures ErrorOk(s', s'.places.At(q).error) {
      assert s.places.At(q) == s'.places.At(q) && ErrorOk(s, s.places.At(q).error);
    }
  }

  /** A goroutine that moves on without sending. */
  lemma MoveKeepsInv(s: State, r: Role, p: Place, context: Context, buffered: nat)
    requires Inv(s) && s.places.At(r).Sent() == p.Sent() && !p.Sending?
    requires context == s.context || (s.sent != [] && context == Derived(s.context))
    ensures Inv(s.(context := context, places := s.places.Put(r, p), buffered := buffered))
  {
    var s' := s.(context := context, places := s.places.Put(r, p), buffered := buffered);
    forall q | s'.places.At(q).Sending? ensures ErrorOk(s', s'.places.At(q).error) {
      assert s.places.At(q) == s'.places.At(q) && ErrorOk(s, s.places.At(q).error);
    }
  }

  lemma FailKeepsInv(s: State, r: Role, kind: Kind)
    requires Inv(s) && CanFail(s, r, kind)
    ensures Inv(Next(s, Fails(r, kind)))
  {
    var s' := Next(s, Fails(r, kind));
    forall q | s'.places.At(q).Sending? ensures ErrorOk(s', s'.places.At(q).error) {
      assert q != r ==> s.places.At(q) == s'.places.At(q);
    }
  }

  lemma NextKeepsInv(s: State, step: Step)
    requires Inv(s) && Enabled(s, step)
    ensures Inv(Next(s, step))
  {
    var s' := Next(s, step);
    match step
    case Sends(r) => SendKeepsInv(s, r, s');
    case Proceeds(r) => MoveKeepsInv(s, r, After(r, s.places.At(r)), s.context, s'.buffered);
    case Cancels(r) => MoveKeepsInv(s, r, Finished, Derived(s.context), s.buffered);
    case Fails(r, kind) => FailKeepsInv(s, r, kind);
    case SkipsLocalFrame =>
    case _ => HandlerKeepsInv(s, step, s');
  }

  lemma {:induction false} BehaviorKeepsInv(states: seq<State>, k: nat)
    requires Behavior(states) && k < |states|
    ensures Inv(states[k])
  {
    if k > 0 {
      BehaviorKeepsInv(states, k - 1);
      assert Follows(states[k - 1], states[k]);
      var step :| Enabled(states[k - 1], step) && states[k] == Next(states[k - 1], step);
      NextKeepsInv(states[k - 1], step);
    }
  }

  // ----- main results

  /** The root cause survives. In every interleaving, the error the handler receives is the
      first that was sent, and it arose while neither the derived cancel nor the handler's
      closes had happened; so a cancellation error reaches the handler only when the
      request itself was cancelled. */
  lemma {:induction false} RootCauseSurvives(states: seq<State>, k: nat)
    requires Behavior(states) && k < |states| && !states[k].handler.Receiving?
    ensures var s := states[k];
            && s.sent != [] && s.handler.error == s.sent[0]
            && !s.handler.error.Secondary()
            && (s.handler.error.kind == Canceled ==> s.context == ParentCancelled)
  {
    BehaviorKeepsInv(states, k);
  }

  /** No send ever blocks: whenever a goroutine has an error to send, there is room. */
  lemma {:induction false} SendsNeverBlock(states: seq<State>, k: nat, r: Role)
    requires Behavior(states) && k < |states| && states[k].places.At(r).Sending?
    ensures Enabled(states[k], Sends(r))
  {
    BehaviorKeepsInv(states, k);
    SendsAreCounted(states[k], r);
  }

  /** What the browser sees is decided by what went wrong first: in every run, once its
      connection is closed, the status is a normal close exactly for a cancellation or a
      normal closure, "session expired" exactly for an expired session, "going away" exactly
      for a failed heartbeat, and "proxy violation" exactly for anything else. The deferred
      second close never shows. */
  lemma {:induction false} BrowserSeesCause(states: seq<State>, k: nat)
    requires Behavior(states) && k < |states|
    ensures var s := states[k];
            && (s.seen.Some? <==> s.browserClosed)
            && (s.browserClosed ==>
                  && s.sent != []
                  && (s.seen.value == Normal <==> s.sent[0].kind == Canceled || s.sent[0].kind == NormalClosure)
                  && (s.seen.value == PolicyExpired <==> s.sent[0].kind == SessionExpired)
                  && (s.seen.value == GoingAway <==> s.sent[0].kind == HeartbeatFailed)
                  && (s.seen.value == PolicyViolation <==> s.sent[0].kind == Violation)
                  && s.seen.value != InternalError)
  {
    BehaviorKeepsInv(states, k);
  }

  /** A browser sees a normal close exactly when a connection closed normally before the
      proxy began to shut down, or the request was cancelled and that is what went wrong. */
  lemma {:induction false} NormalCloseIsGenuine(states: seq<State>, k: nat)
    requires Behavior(states) && k < |states| && states[k].browserClosed
    ensures states[k].sent != []
    ensures states[k].seen == Some(Normal) <==>
            var e := states[k].sent[0];
            || (e.kind == NormalClosure && e.context != DerivedCancelled && !e.closing)
            || (e.kind == Canceled && e.context == ParentCancelled && states[k].context == ParentCancelled)
  {
    BehaviorKeepsInv(states, k);
  }

  /** The order of a goroutine's operations: a frame is written only after one was read,
      and the session is touched only after a ping was answered. */
  lemma {:induction false} OperationsAlternate(states: seq<State>, k: nat, r: Role)
    requires Behavior(states) && k + 1 < |states|
    requires var p, q := states[k].places.At(r), states[k + 1].places.At(r); p != q && q.Working()
    ensures var p, q := states[k].places.At(r), states[k + 1].places.At(r);
            && (q.Forwarding? ==> p.Waiting?)
            && (q.Touching? ==> r == KeepAlive && p.Forwarding?)
            && (q.Waiting? ==> if r == KeepAlive then p.Touching? else p.Forwarding?)
  {
    TouchingIsKeepAlive(states, k);
    assert Follows(states[k], states[k + 1]);
    var step :| Enabled(states[k], step) && states[k + 1] == Next(states[k], step);
    StepAlternates(states[k], step, r);
  }

  /** Only the keep-alive goroutine touches the session. */
  ghost predicate OnlyKeepAliveTouches(s: State) {
    !s.places.browserToJava.Touching? && !s.places.javaToBrowser.Touching?
  }

  /** Only a goroutine that proceeds comes to an operation. */
  lemma StepAlternates(s: State, step: Step, r: Role)
    requires Enabled(s, step) && OnlyKeepAliveTouches(s)
    requires Next(s, step).places.At(r) != s.places.At(r) && Next(s, step).places.At(r).Working()
    ensures var p, q := s.places.At(r), Next(s, step).places.At(r);
            && (q.Forwarding? ==> p.Waiting?)
            && (q.Touching? ==> r == KeepAlive && p.Forwarding?)
            && (q.Waiting? ==> if r == KeepAlive then p.Touching? else p.Forwarding?)
  {
    var moved := Next(s, step).places;
    match step
    case Proceeds(x) =>
      PutElsewhere(s.places, x, After(x, s.places.At(x)), r);
      assert moved == s.places.Put(x, After(x, s.places.At(x)));
    case Fails(x, kind) => PutElsewhere(s.places, x, Sending(Error(kind, s.context, s.browserClosed)), r);
    case Sends(x) => PutElsewhere(s.places, x, Place.Cancelling, r);
    case Cancels(x) => PutElsewhere(s.places, x, Finished, r);
    case _ =>
  }

  lemma PutElsewhere(places: Places, x: Role, p: Place, r: Role)
    ensures places.Put(x, p).At(r) == if r == x then p else places.At(r)
  {
  }

  lemma StepKeepsTouches(s: State, step: Step)
    requires Enabled(s, step) && OnlyKeepAliveTouches(s)
    ensures OnlyKeepAliveTouches(Next(s, step))
  {
  }

  lemma {:induction false} TouchingIsKeepAlive(states: seq<State>, k: nat)
    requires Behavior(states) && k < |states|
    ensures OnlyKeepAliveTouches(states[k])
  {
    if k > 0 {
      TouchingIsKeepAlive(states, k - 1);
      assert Follows(states[k - 1], states[k]);
      var step :| Enabled(states[k - 1], step) && states[k] == Next(states[k - 1], step);
      StepKeepsTouches(states[k - 1], step);
    }
  }

  // ----- termination

  /** How many steps a goroutine can still take once everything is closed. */
  function StepsLeft(p: Place): nat {
    match p
    case Finished => 0
    case Cancelling => 1
    case Sending(_) => 2
    case Forwarding => 3
    case Waiting => 4
    case Touching => 5
  }

  function Measure(s: State): nat {
    StepsLeft(s.places.browserToJava) + StepsLeft(s.places.javaToBrowser) + StepsLeft(s.places.keepAlive)
  }

  predicate AllFinished(s: State) {
    s.places == Places(Finished, Finished, Finished)
  }

  /** Once the handler has returned, every step any goroutine can take brings the end
      nearer. */
  lemma ReturnedWindsDown(s: State, step: Step)
    requires Inv(s) && s.handler.Returned? && Enabled(s, step)
    ensures Next(s, step).handler.Returned? && Measure(Next(s, step)) < Measure(s)
  {
  }

  /** The closes unblock everything: once the handler has returned, every unfinished
      goroutine has a step that nothing outside can withhold. */
  lemma ReturnedMakesProgress(s: State, r: Role)
    requires Inv(s) && s.handler.Returned? && !s.places.At(r).Finished?
    ensures exists step :: By(step, r) && Forced(s, step)
  {
    var p := s.places.At(r);
    var step :=
      if p.Sending? then Sends(r)
      else if p.Cancelling? then Cancels(r)
      else if p.Touching? || (r == JavaToBrowser && p.Waiting? && s.buffered > 0) then Proceeds(r)
      else if r != KeepAlive then Fails(r, Violation)
      else if p.Forwarding? then Fails(r, HeartbeatFailed)
      else Fails(r, Canceled);
    if p.Sending? {
      SendsAreCounted(s, r);
    }
    assert By(step, r) && Forced(s, step);
  }

  /** And nothing less would do: in any reachable state, a goroutine that waits for Java
      with no line left can be sure to go on exactly when the handler has returned, that is,
      when the Java connection was closed. Cancelling the context is not enough. */
  lemma {:induction false} JavaReadNeedsClose(states: seq<State>, k: nat)
    requires Behavior(states) && k < |states|
    requires states[k].places.javaToBrowser.Waiting? && states[k].buffered == 0
    ensures (exists step :: By(step, JavaToBrowser) && Forced(states[k], step)) <==> states[k].handler.Returned?
  {
    BehaviorKeepsInv(states, k);
    if states[k].handler.Returned? {
      ReturnedMakesProgress(states[k], JavaToBrowser);
    }
  }

  lemma BehaviorAppend(states: seq<State>, step: Step)
    requires Behavior(states) && Enabled(states[|states| - 1], step)
    ensures Behavior(states + [Next(states[|states| - 1], step)])
  {
    var s := states[|states| - 1];
    assert Follows(s, Next(s, step));
  }

  /** The browser's side fails first and its error reaches the handler. */
  lemma FirstErrorArrives() returns (states: seq<State>)
    ensures Behavior(states)
    ensures var e := Error(Violation, Active, false);
            states[|states| - 1] ==
            State(Active, Places(Place.Cancelling, Waiting, Waiting), Closing(e), [e], 1, false, false, 0, None)
  {
    states := [State(Active, Places(Waiting, Waiting, Waiting), Receiving, [], 0, false, false, 0, None)];
    BehaviorAppend(states, Fails(BrowserToJava, Violation));
    states := states + [Next(states[0], Fails(BrowserToJava, Violation))];
    BehaviorAppend(states, Sends(BrowserToJava));
    states := states + [Next(states[1], Sends(BrowserToJava))];
    BehaviorAppend(states, HandlerReceives);
    states := states + [Next(states[2], HandlerReceives)];
  }

  /** Such states are reached: here every other deferred call has been made, and the
      goroutine still waits. */
  lemma BlockedBeforeClose() returns (states: seq<State>)
    ensures Behavior(states)
    ensures var s := states[|states| - 1];
            && s.handler.ClosingJava? && s.context == DerivedCancelled && s.browserClosed
            && s.places.javaToBrowser.Waiting?
            && forall step :: By(step, JavaToBrowser) ==> !Forced(s, step)
  {
    states := FirstErrorArrives();
    BehaviorAppend(states, HandlerUnwinds(0));
    states := states + [Next(states[|states| - 1], HandlerUnwinds(0))];
    BehaviorAppend(states, HandlerUnwinds(0));
    states := states + [Next(states[|states| - 1], HandlerUnwinds(0))];
  }

  /** All is finished, or some step is to be taken that nothing outside can withhold. */
  ghost predicate MovesOn(s: State) {
    AllFinished(s) || exists step :: Forced(s, step)
  }

  lemma ReturnedMovesOn(s: State)
    requires Inv(s) && s.handler.Returned?
    ensures MovesOn(s)
  {
    if !AllFinished(s) {
      var r :| !s.places.At(r).Finished?;
      ReturnedMakesProgress(s, r);
    }
  }

  lemma FollowsWindsDown(s: State, s': State)
    requires Inv(s) && s.handler.Returned? && Follows(s, s')
    ensures s'.handler.Returned? && Measure(s') < Measure(s)
  {
    var step :| Enabled(s, step) && s' == Next(s, step);
    ReturnedWindsDown(s, step);
  }

  lemma {:induction false} ReturnedIsBounded(states: seq<State>, k: nat)
    requires Behavior(states) && k < |states| && states[k].handler.Returned?
    ensures |states| - 1 - k <= Measure(states[k]) && states[|states| - 1].handler.Returned?
    decreases |states| - k
  {
    if k + 1 < |states| {
      BehaviorKeepsInv(states, k);
      FollowsWindsDown(states[k], states[k + 1]);
      ReturnedIsBounded(states, k + 1);
    }
  }

  /** After the handler's deferred cancel and closes, no schedule runs for more steps than
      the measure, and until every goroutine has finished there is a step that nothing
      outside can withhold. */
  lemma {:induction false} GoroutinesFinish(states: seq<State>, k: nat)
    requires Behavior(states) && k < |states| && states[k].handler.Returned?
    ensures |states| - 1 - k <= Measure(states[k])
    ensures MovesOn(states[|states| - 1])
  {
    ReturnedIsBounded(states, k);
    BehaviorKeepsInv(states, |states| - 1);
    ReturnedMovesOn(states[|states| - 1]);
  }
}
