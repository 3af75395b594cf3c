/** The whole QMP pipeline as a transition system: QEMU, the reader goroutine, callers of Execute,
    subscribers, the panic handler and the step runner's panic flag (internal/qemu/machine.go,
    internal/qemu/pvpanic.go, internal/executor/panic_handler.go).

    The mutex `mu` is held by a waiting Execute and by the reader while it walks the listener
    table; every other critical section is one action. */
module QmpSystem {
  import opened Wrappers
  import opened QmpHub
  import opened QmpCalls

  /** Where the reader goroutine is: reading, waiting for mu with an event, walking the listeners,
      waiting for mu to close them, closing them, gone. */
  datatype Reader =
    | Reading
    | WantsDispatch(event: string)
    | Sending(event: string, todo: set<nat>)
    | WantsClose
    | Closing
    | Gone

  /** Where the panic handler is. `Seen` holds a panic event and still has to unsubscribe. */
  datatype Handler =
    | NotStarted
    | Watching(id: nat)
    | Leaving(id: nat)
    | Seen(id: nat)
    | PauseNext(id: nat)
    | Pausing(id: nat)
    | Paused(id: nat)
    | Signalled(id: nat)
    | Quit

  datatype Sys = Sys(
    wire: seq<Line>,
    hungUp: bool,
    calls: Calls,
    hub: Hub,
    reader: Reader,
    handler: Handler,
    pausesReturned: nat,
    panicCloses: nat,
    panicDetected: bool)

  const INIT := Sys([], false, NO_CALLS, EMPTY_HUB, Reading, NotStarted, 0, 0, false)

  datatype Action =
    // QEMU
    | QemuReplies
    | QemuEmits(event: string)
    | QemuNoise
    | QemuHangsUp
    // the reader goroutine
    | ReadLine
    | ReadFails
    | LockDispatch
    | SendTo(to: nat)
    | FinishDispatch
    | LockClose
    | CloseListener(which: nat)
    | FinishClose
    // callers and subscribers
    | CallBegins
    | CallTakes
    | CallGivesUp
    | Subscribes
    | Unsubscribes(sub: nat)
    | Receives(from: nat)
    // the panic handler and the runner
    | HandlerSubscribes
    | HandlerReceives
    | HandlerStops
    | HandlerUnsubscribes
    | PauseBegins
    | PauseFails
    | HandlerSignals
    | RunnerSeesPanic

  predicate MuFree(s: Sys) {
    s.calls.caller.Idle? && !s.reader.Sending? && !s.reader.Closing?
  }

  /** The handler's channel and its unsubscribe closure are local to its goroutine. */
  predicate HandlersOwn(s: Sys, id: nat) {
    !s.handler.NotStarted? && !s.handler.Quit? && s.handler.id == id
  }

  predicate IsPanic(e: string) {
    e == "GUEST_PANICKED" || e == "GUEST_CRASHLOADED"
  }

  /** A call returned, with a reply or without; if it was the handler's pause, the handler goes on. */
  function Returned(s: Sys, calls: Calls): Sys {
    if s.calls.caller.Waiting? && s.calls.caller.byHandler && s.handler.Pausing? then
      s.(calls := calls, handler := Paused(s.handler.id), pausesReturned := s.pausesReturned + 1)
    else
      s.(calls := calls)
  }

  function ReadNext(s: Sys): Sys
    requires s.wire != []
  {
    var t := s.(wire := s.wire[1..]);
    match s.wire[0]
    case Noise => t
    case Event(e) => t.(reader := WantsDispatch(e))
    case Reply(r) => t.(calls := Push(s.calls, r))
  }

  /** The state after an action, or None when the action is not enabled. */
  function Next(s: Sys, a: Action): Option<Sys> {
    match a
    case QemuReplies =>
      if !s.hungUp && s.calls.answered < s.calls.issued then
        Some(s.(wire := s.wire + [Reply(s.calls.answered)],
                calls := s.calls.(answered := s.calls.answered + 1)))
      else None
    case QemuEmits(e) => if !s.hungUp && e != "" then Some(s.(wire := s.wire + [Event(e)])) else None
    case QemuNoise => if !s.hungUp then Some(s.(wire := s.wire + [Noise])) else None
    case QemuHangsUp => Some(s.(hungUp := true))
    case ReadLine => if s.reader.Reading? && s.wire != [] then Some(ReadNext(s)) else None
    case ReadFails => if s.reader.Reading? && s.hungUp then Some(s.(reader := WantsClose)) else None
    case LockDispatch =>
      if s.reader.WantsDispatch? && MuFree(s) then
        Some(s.(reader := Sending(s.reader.event, s.hub.listeners), hub := Logged(s.hub, s.reader.event)))
      else None
    case SendTo(id) =>
      if s.reader.Sending? && id in s.reader.todo && id in s.hub.chans then
        Some(s.(reader := s.reader.(todo := s.reader.todo - {id}), hub := OfferTo(s.hub, id, s.reader.event)))
      else None
    case FinishDispatch => if s.reader.Sending? && s.reader.todo == {} then Some(s.(reader := Reading)) else None
    case LockClose => if s.reader.WantsClose? && MuFree(s) then Some(s.(reader := Closing)) else None
    case CloseListener(id) =>
      if s.reader.Closing? && id in s.hub.listeners && id in s.hub.chans then
        Some(s.(hub := CloseOne(s.hub, id)))
      else None
    case FinishClose => if s.reader.Closing? && s.hub.listeners == {} then Some(s.(reader := Gone)) else None
    case CallBegins => if MuFree(s) then Some(s.(calls := Begin(s.calls, false))) else None
    case CallTakes =>
      if s.calls.caller.Waiting? && s.calls.queue != [] then Some(Returned(s, Take(s.calls))) else None
    case CallGivesUp => if s.calls.caller.Waiting? then Some(Returned(s, Abandon(s.calls))) else None
    case Subscribes => if MuFree(s) then Some(s.(hub := Subscribe(s.hub))) else None
    case Unsubscribes(id) =>
      if MuFree(s) && !HandlersOwn(s, id) then Some(s.(hub := Unsubscribe(s.hub, id))) else None
    case Receives(id) =>
      if id in s.hub.chans && s.hub.chans[id].slot != [] && !HandlersOwn(s, id) then
        Some(s.(hub := Receive(s.hub, id)))
      else None
    case HandlerSubscribes =>
      if s.handler.NotStarted? && MuFree(s) then
        Some(s.(handler := Watching(s.hub.nextId), hub := Subscribe(s.hub)))
      else None
    case HandlerReceives =>
      if s.handler.Watching? && s.handler.id in s.hub.chans && s.hub.chans[s.handler.id].slot != [] then
        var e := s.hub.chans[s.handler.id].slot[0];
        Some(s.(hub := Receive(s.hub, s.handler.id),
                handler := if IsPanic(e) then Seen(s.handler.id) else s.handler))
      else None
    case HandlerStops => if s.handler.Watching? then Some(s.(handler := Leaving(s.handler.id))) else None
    case HandlerUnsubscribes =>
      if s.handler.Seen? && MuFree(s) then
        Some(s.(hub := Unsubscribe(s.hub, s.handler.id), handler := PauseNext(s.handler.id)))
      else if s.handler.Leaving? && MuFree(s) then
        Some(s.(hub := Unsubscribe(s.hub, s.handler.id), handler := Quit))
      else None
    case PauseBegins =>
      if s.handler.PauseNext? && MuFree(s) then
        Some(s.(calls := Begin(s.calls, true), handler := Pausing(s.handler.id)))
      else None
    case PauseFails =>
      if s.handler.PauseNext? && MuFree(s) then
        Some(s.(handler := Paused(s.handler.id), pausesReturned := s.pausesReturned + 1))
      else None
    case HandlerSignals =>
      if s.handler.Paused? then
        Some(s.(handler := Signalled(s.handler.id), panicCloses := s.panicCloses + 1))
      else None
    case RunnerSeesPanic => if s.panicCloses > 0 then Some(s.(panicDetected := true)) else None
  }

  /** The state after a whole run, or None when some action of it was not enabled. */
  function Run(s: Sys, acts: seq<Action>): Option<Sys>
    decreases acts
  {
    if acts == [] then Some(s)
    else
      var t := Next(s, acts[0]);
      if t.None? then None else Run(t.value, acts[1..])
  }

  // ---- The inductive invariant ----

  function Todo(s: Sys): set<nat> {
    if s.reader.Sending? then s.reader.todo else {}
  }

  function Current(s: Sys): string {
    if s.reader.Sending? then s.reader.event else ""
  }

  /** A panic event was dispatched after subscription `id` was made. */
  ghost predicate PanicSince(h: Hub, id: nat) {
    id in h.chans && exists k :: h.chans[id].since <= k < |h.dispatched| && IsPanic(h.dispatched[k])
  }

  /** Nothing received on channel `id` was a panic event. */
  ghost predicate CalmSoFar(h: Hub, id: nat) {
    id in h.chans && forall e | e in h.chans[id].got :: !IsPanic(e)
  }

  ghost predicate HandlerOk(s: Sys) {
    && (s.handler.Watching? || s.handler.Leaving? ==> CalmSoFar(s.hub, s.handler.id))
    && (s.handler.Seen? || s.handler.PauseNext? || s.handler.Pausing? || s.handler.Paused? || s.handler.Signalled?
        ==> PanicSince(s.hub, s.handler.id))
    && (s.handler.Pausing? <==> s.calls.caller.Waiting? && s.calls.caller.byHandler)
    && s.pausesReturned == (if s.handler.Paused? || s.handler.Signalled? then 1 else 0)
    && s.panicCloses == (if s.handler.Signalled? then 1 else 0)
    && (s.panicDetected ==> s.handler.Signalled?)
  }

  ghost predicate Inv(s: Sys) {
    && CallsOk(s.calls, s.wire)
    && HubOk(s.hub, Todo(s), Current(s))
    && HandlerOk(s)
    && MuOk(s)
  }

  /** The reader and a caller never hold the mutex together. */
  ghost predicate MuOk(s: Sys) {
    s.reader.Sending? || s.reader.Closing? ==> s.calls.caller.Idle?
  }

  lemma InitOk()
    ensures Inv(INIT)
  {
    NoCallsOk();
    hide CallsOk;
  }

  lemma NoCallsOk()
    ensures CallsOk(NO_CALLS, [])
  {
    assert Outstanding(NO_CALLS, []) == [];
  }

  lemma CallsStep(s: Sys, a: Action)
    requires Inv(s) && Next(s, a).Some?
    ensures CallsOk(Next(s, a).value.calls, Next(s, a).value.wire)
  {
    hide HubOk, CallsOk, HandlerOk;
    match a
    case QemuReplies => CallsRange(s); AnswerKeeps(s.calls, s.wire);
    case QemuEmits(e) => OtherLineKeeps(s.calls, s.wire, Event(e));
    case QemuNoise => OtherLineKeeps(s.calls, s.wire, Noise);
    case ReadLine =>
      if s.wire[0].Reply? {
        PushKeeps(s.calls, s.wire);
      } else {
        SkipLineKeeps(s.calls, s.wire);
      }
    case CallBegins => BeginKeeps(s.calls, s.wire, false);
    case PauseBegins => BeginKeeps(s.calls, s.wire, true);
    case CallTakes => TakeKeeps(s.calls, s.wire);
    case CallGivesUp => AbandonKeeps(s.calls, s.wire);
    case _ =>
  }

  lemma CallsRange(s: Sys)
    requires CallsOk(s.calls, s.wire)
    ensures s.calls.answered <= s.calls.issued
  {
  }

  lemma HubStep(s: Sys, a: Action)
    requires Inv(s) && Next(s, a).Some?
    ensures HubOk(Next(s, a).value.hub, Todo(Next(s, a).value), Current(Next(s, a).value))
  {
    hide CallsOk, ChannelOk, LogOk, HandlerOk;
    match a
    case LockDispatch => LoggedKeeps(s.hub, "", s.reader.event);
    case SendTo(id) => OfferToKeeps(s.hub, id, s.reader.todo, s.reader.event);
    case FinishDispatch => assert forall id: nat :: Owed(id, {}, s.reader.event) == Owed(id, {}, "");
    case CloseListener(id) => CloseKeeps(s.hub, id, "");
    case Subscribes => SubscribeKeeps(s.hub, "");
    case HandlerSubscribes => SubscribeKeeps(s.hub, "");
    case Unsubscribes(id) => UnsubscribeKeeps(s.hub, id, "");
    case HandlerUnsubscribes => UnsubscribeKeeps(s.hub, s.handler.id, "");
    case Receives(id) => ReceiveKeeps(s.hub, id, Todo(s), Current(s));
    case HandlerReceives => ReceiveKeeps(s.hub, s.handler.id, Todo(s), Current(s));
    case _ =>
  }

  /** What a subscriber finds in its slot was dispatched after it subscribed. */
  lemma SlotWasDispatched(h: Hub, todo: set<nat>, e: string, id: nat)
    requires HubOk(h, todo, e) && id in h.chans && h.chans[id].slot != []
    ensures exists k :: h.chans[id].since <= k < |h.dispatched| && h.dispatched[k] == h.chans[id].slot[0]
  {
    var c := h.chans[id];
    assert ChannelOk(c) && LogOk(c, h.dispatched, Owed(id, todo, e));
    var k := c.freed[|c.got|];
    var tail := h.dispatched[c.since..];
    assert c.offered <= tail;
    assert tail[k] == c.offered[k];
    assert h.dispatched[c.since + k] == c.slot[0];
  }

  /** The log only grows and subscription points never move, so a panic seen stays seen. */
  lemma PanicStays(s: Sys, a: Action, id: nat)
    requires Inv(s) && Next(s, a).Some? && PanicSince(s.hub, id)
    ensures PanicSince(Next(s, a).value.hub, id)
  {
    var t := Next(s, a).value;
    var k :| s.hub.chans[id].since <= k < |s.hub.dispatched| && IsPanic(s.hub.dispatched[k]);
    assert id < s.hub.nextId;
    LogGrows(s, a);
    hide Next, Inv;
    assert t.hub.dispatched[k] == s.hub.dispatched[k];
  }

  lemma LogGrows(s: Sys, a: Action)
    requires Next(s, a).Some?
    ensures Grows(s.hub, Next(s, a).value.hub)
  {
    hide Subscribe, CloseOne, Unsubscribe, OfferTo, Receive, Logged, Begin, Push, Take, Abandon;
  }

  /** Only the handler receives on its channel. */
  lemma CalmStays(s: Sys, a: Action)
    requires HubOk(s.hub, Todo(s), Current(s)) && Next(s, a).Some? && !a.HandlerReceives?
    requires (s.handler.Watching? || s.handler.Leaving?) && CalmSoFar(s.hub, s.handler.id)
    ensures CalmSoFar(Next(s, a).value.hub, s.handler.id)
  {
    hide ChannelOk, LogOk, Begin, Push, Take, Abandon;
  }

  predicate PastPanic(h: Handler) {
    h.Seen? || h.PauseNext? || h.Pausing? || h.Paused? || h.Signalled?
  }

  predicate TouchesHandler(a: Action) {
    || a.CallBegins? || a.CallTakes? || a.CallGivesUp? || a.HandlerSubscribes? || a.HandlerReceives?
    || a.HandlerStops? || a.HandlerUnsubscribes? || a.PauseBegins? || a.PauseFails? || a.HandlerSignals?
    || a.RunnerSeesPanic?
  }

  lemma OthersSpareHandler(s: Sys, a: Action)
    requires Next(s, a).Some? && !TouchesHandler(a)
    ensures var t := Next(s, a).value;
      && t.handler == s.handler && t.calls.caller == s.calls.caller && t.pausesReturned == s.pausesReturned
      && t.panicCloses == s.panicCloses && t.panicDetected == s.panicDetected
  {
  }

  lemma PanicKept(s: Sys, a: Action)
    requires Inv(s) && Next(s, a).Some? && PastPanic(s.handler)
    ensures PanicSince(Next(s, a).value.hub, s.handler.id)
  {
    hide Next, CallsOk, HubOk, MuOk;
    assert HandlerOk(s);
    hide PanicSince, HandlerOk;
    PanicStays(s, a, s.handler.id);
  }

  lemma HandlerStep(s: Sys, a: Action)
    requires Inv(s) && Next(s, a).Some?
    ensures HandlerOk(Next(s, a).value)
  {
    hide Next, CallsOk, HubOk, PanicSince, MuOk;
    LogGrows(s, a);
    if PastPanic(s.handler) {
      PanicKept(s, a);
    }
    if (s.handler.Watching? || s.handler.Leaving?) && !a.HandlerReceives? {
      CalmStays(s, a);
    }
    hide CalmSoFar;
    if TouchesHandler(a) {
      hide HandlerOk;
      HandlerMoves(s, a);
    } else {
      HandlerSpared(s, a);
    }
  }

  lemma HandlerSpared(s: Sys, a: Action)
    requires HandlerOk(s) && Next(s, a).Some? && !TouchesHandler(a)
    requires (s.handler.Watching? || s.handler.Leaving?) && !a.HandlerReceives? ==>
               CalmSoFar(Next(s, a).value.hub, s.handler.id)
    requires PastPanic(s.handler) ==> PanicSince(Next(s, a).value.hub, s.handler.id)
    ensures HandlerOk(Next(s, a).value)
  {
    OthersSpareHandler(s, a);
    hide Next, PanicSince, CalmSoFar;
  }

  lemma HandlerMoves(s: Sys, a: Action)
    requires HubOk(s.hub, Todo(s), Current(s)) && HandlerOk(s) && Next(s, a).Some? && TouchesHandler(a)
    requires (s.handler.Watching? || s.handler.Leaving?) && !a.HandlerReceives? ==>
               CalmSoFar(Next(s, a).value.hub, s.handler.id)
    requires PastPanic(s.handler) ==> PanicSince(Next(s, a).value.hub, s.handler.id)
    ensures HandlerOk(Next(s, a).value)
  {
    hide HubOk, PanicSince, CalmSoFar, CloseOne, Unsubscribe;
    match a
    case HandlerReceives =>
      if IsPanic(s.hub.chans[s.handler.id].slot[0]) {
        PanicReceived(s);
      } else {
        CalmReceived(s.hub, s.handler.id);
      }
    case CallBegins =>
    case CallTakes =>
    case CallGivesUp =>
    case HandlerSubscribes => NewIsCalm(s.hub);
    case HandlerUnsubscribes =>
    case PauseBegins =>
    case _ =>
  }

  lemma CalmReceived(h: Hub, id: nat)
    requires CalmSoFar(h, id) && h.chans[id].slot != [] && !IsPanic(h.chans[id].slot[0])
    ensures CalmSoFar(Receive(h, id), id)
  {
  }

  lemma NewIsCalm(h: Hub)
    ensures CalmSoFar(Subscribe(h), h.nextId)
  {
  }

  lemma PanicReceived(s: Sys)
    requires HubOk(s.hub, Todo(s), Current(s))
    requires s.handler.Watching? && s.handler.id in s.hub.chans && s.hub.chans[s.handler.id].slot != []
    requires IsPanic(s.hub.chans[s.handler.id].slot[0])
    ensures PanicSince(Receive(s.hub, s.handler.id), s.handler.id)
  {
    hide HubOk;
    SlotWasDispatched(s.hub, Todo(s), Current(s), s.handler.id);
  }

  lemma MuStep(s: Sys, a: Action)
    requires MuOk(s) && Next(s, a).Some?
    ensures MuOk(Next(s, a).value)
  {
  }

  lemma StepKeepsInv(s: Sys, a: Action)
    requires Inv(s) && Next(s, a).Some?
    ensures Inv(Next(s, a).value)
  {
    CallsStep(s, a);
    HubStep(s, a);
    HandlerStep(s, a);
    MuStep(s, a);
    hide Next, CallsOk, HubOk, HandlerOk, MuOk;
  }

  lemma {:induction false} RunKeepsInv(s: Sys, acts: seq<Action>)
    requires Inv(s) && Run(s, acts).Some?
    ensures Inv(Run(s, acts).value)
    decreases acts
  {
    hide Inv;
    if acts != [] {
      StepKeepsInv(s, acts[0]);
      RunKeepsInv(Next(s, acts[0]).value, acts[1..]);
    }
  }

  ghost predicate Reachable(s: Sys) {
    exists acts :: Run(INIT, acts) == Some(s)
  }

  lemma ReachableOk(s: Sys)
    requires Reachable(s)
    ensures Inv(s)
  {
    hide Inv;
    var acts :| Run(INIT, acts) == Some(s);
    InitOk();
    RunKeepsInv(INIT, acts);
  }
}
