/** Where the QMP pipeline gets to by the program's own steps: a panic event in the handler's slot reaches
    the runner, a hung-up stream closes every listener, a dispatched event reaches its subscribers. */
module QmpProgress {
  import opened Wrappers
  import opened QmpHub
  import opened QmpCalls
  import opened QmpSystem
  import opened QmpTheorems

  /** A step of the program that needs nothing from QEMU and no call of a test author to be given up; the
      handler's pause has a timeout of its own and may be. */
  predicate Own(s: Sys, a: Action) {
    !FromQemu(a) && (a.CallGivesUp? ==> s.calls.caller.Waiting? && s.calls.caller.byHandler)
  }

  ghost predicate OwnRun(s: Sys, acts: seq<Action>)
    decreases |acts|
  {
    acts != [] ==>
      Own(s, acts[0]) && Next(s, acts[0]).Some? && OwnRun(Next(s, acts[0]).value, acts[1..])
  }

  ghost predicate Leads(s: Sys, t: Sys) {
    exists acts :: OwnRun(s, acts) && Run(s, acts) == Some(t)
  }

  lemma LeadsNowhere(s: Sys)
    ensures Leads(s, s)
  {
    assert OwnRun(s, []) && Run(s, []) == Some(s);
  }

  lemma LeadsBy(s: Sys, a: Action, t: Sys)
    requires Own(s, a) && Next(s, a).Some? && Leads(Next(s, a).value, t)
    ensures Leads(s, t)
  {
    hide Next, Own;
    var acts :| OwnRun(Next(s, a).value, acts) && Run(Next(s, a).value, acts) == Some(t);
    var all := [a] + acts;
    assert all[0] == a && all[1..] == acts;
    assert OwnRun(s, all) && Run(s, all) == Some(t);
  }

  lemma {:induction false} OwnRunOn(s: Sys, acts: seq<Action>, t: Sys, u: Sys)
    requires OwnRun(s, acts) && Run(s, acts) == Some(t) && Leads(t, u)
    ensures Leads(s, u)
    decreases |acts|
  {
    hide Next, Own, Leads;
    if acts == [] {
      assert t == s;
    } else {
      OwnRunOn(Next(s, acts[0]).value, acts[1..], t, u);
      LeadsBy(s, acts[0], u);
    }
  }

  lemma LeadsOn(s: Sys, t: Sys, u: Sys)
    requires Leads(s, t) && Leads(t, u)
    ensures Leads(s, u)
  {
    var acts :| OwnRun(s, acts) && Run(s, acts) == Some(t);
    hide Leads;
    OwnRunOn(s, acts, t, u);
  }

  lemma LeadsKeepsInv(s: Sys, t: Sys)
    requires Inv(s) && Leads(s, t)
    ensures Inv(t)
  {
    hide Inv;
    var acts :| OwnRun(s, acts) && Run(s, acts) == Some(t);
    RunKeepsInv(s, acts);
  }

  // ---- The reader finishes what it does under the mutex ----

  function AfterSends(s: Sys): Sys
    requires s.reader.Sending? && s.reader.todo <= s.hub.chans.Keys
  {
    s.(reader := Reading, hub := OfferAll(s.hub, s.reader.todo, s.reader.event))
  }

  lemma TodoIsListed(s: Sys)
    requires Inv(s)
    ensures s.hub.listeners <= s.hub.chans.Keys
    ensures s.reader.Sending? ==> s.reader.todo <= s.hub.chans.Keys
  {
    hide CallsOk, HandlerOk, ChannelOk, LogOk;
  }

  lemma OfferNone(h: Hub, e: string)
    ensures OfferAll(h, {}, e) == h
  {
    assert OfferAll(h, {}, e).chans == h.chans;
  }

  lemma {:induction false} SendAll(s: Sys)
    requires Inv(s) && s.reader.Sending? && s.reader.todo <= s.hub.chans.Keys
    ensures Leads(s, AfterSends(s))
    decreases |if s.reader.Sending? then s.reader.todo else {}|
  {
    hide Inv, Leads, OfferAll, OfferTo;
    if s.reader.todo == {} {
      OfferNone(s.hub, s.reader.event);
      LeadsNowhere(AfterSends(s));
      LeadsBy(s, FinishDispatch, AfterSends(s));
    } else {
      var id :| id in s.reader.todo;
      var t := Next(s, SendTo(id)).value;
      StepKeepsInv(s, SendTo(id));
      OfferAllAnyOrder(s.hub, s.reader.todo, id, s.reader.event);
      SendAll(t);
      assert AfterSends(t) == AfterSends(s);
      LeadsBy(s, SendTo(id), AfterSends(s));
    }
  }

  function AfterCloses(s: Sys): Sys
    requires s.hub.listeners <= s.hub.chans.Keys
  {
    s.(reader := Gone, hub := CloseAll(s.hub, s.hub.listeners))
  }

  lemma CloseNone(h: Hub)
    ensures CloseAll(h, {}) == h
  {
    assert CloseAll(h, {}).chans == h.chans;
  }

  lemma {:induction false} CloseEach(s: Sys)
    requires Inv(s) && s.reader.Closing? && s.hub.listeners <= s.hub.chans.Keys
    ensures Leads(s, AfterCloses(s))
    decreases |s.hub.listeners|
  {
    hide Inv, Leads, CloseAll;
    if s.hub.listeners == {} {
      CloseNone(s.hub);
      LeadsNowhere(AfterCloses(s));
      LeadsBy(s, FinishClose, AfterCloses(s));
    } else {
      var id :| id in s.hub.listeners;
      var t := Next(s, CloseListener(id)).value;
      StepKeepsInv(s, CloseListener(id));
      CloseAllAnyOrder(s.hub, s.hub.listeners, id);
      CloseEach(t);
      LeadsBy(s, CloseListener(id), AfterCloses(s));
    }
  }

  /** The parts of the state that only callers and the handler change. */
  predicate SameCallers(s: Sys, t: Sys) {
    && t.calls == s.calls && t.handler == s.handler && t.pausesReturned == s.pausesReturned
    && t.panicCloses == s.panicCloses && t.panicDetected == s.panicDetected && t.hungUp == s.hungUp
  }

  /** When no call waits, the reader alone sets the mutex free. */
  lemma FreeReader(s: Sys) returns (t: Sys)
    requires Inv(s) && s.calls.caller.Idle?
    ensures Leads(s, t) && Inv(t) && MuFree(t) && SameCallers(s, t)
    ensures !t.reader.Gone? || s.reader.Gone? || (s.reader.Closing? && t.hub == CloseAll(s.hub, s.hub.listeners))
  {
    hide Leads, OfferAll, CloseAll;
    TodoIsListed(s);
    hide Inv;
    if s.reader.Sending? {
      t := AfterSends(s);
      SendAll(s);
    } else if s.reader.Closing? {
      t := AfterCloses(s);
      CloseEach(s);
    } else {
      t := s;
      LeadsNowhere(s);
    }
    LeadsKeepsInv(s, t);
  }

  // ---- A waiting call ----

  lemma WaitingHoldsReader(s: Sys)
    requires Inv(s) && s.calls.caller.Waiting?
    ensures !s.reader.Sending? && !s.reader.Closing?
    ensures s.calls.caller.byHandler <==> s.handler.Pausing?
  {
    hide CallsOk, HubOk;
  }

  /** A call whose reply is deliverable returns and sets the mutex free. */
  lemma {:induction false} FreeCaller(s: Sys) returns (t: Sys)
    requires s.calls.caller.Waiting? && !s.calls.caller.byHandler && Deliverable(s)
    requires !s.reader.Sending? && !s.reader.Closing?
    ensures Leads(s, t) && MuFree(t) && t.handler == s.handler && t.hub == s.hub && t.hungUp == s.hungUp
    ensures t.reader == s.reader
    decreases |s.wire|
  {
    hide Leads;
    if s.calls.queue != [] {
      t := Next(s, CallTakes).value;
      LeadsNowhere(t);
      LeadsBy(s, CallTakes, t);
    } else {
      t := FreeCaller(Next(s, ReadLine).value);
      LeadsBy(s, ReadLine, t);
    }
  }

  /** No call waits, or its reply comes without QEMU doing any more. */
  predicate MutexComesFree(s: Sys) {
    s.calls.caller.Idle? || Deliverable(s)
  }

  lemma FreeMutex(s: Sys) returns (t: Sys)
    requires Inv(s) && MutexComesFree(s) && !s.handler.Pausing?
    ensures Leads(s, t) && Inv(t) && MuFree(t) && t.handler == s.handler && t.hungUp == s.hungUp
    ensures t.reader.Gone? && !s.reader.Gone? ==>
              s.hub.listeners <= s.hub.chans.Keys && t.hub == CloseAll(s.hub, s.hub.listeners)
  {
    hide Leads, Deliverable, CloseAll;
    if s.calls.caller.Idle? {
      TodoIsListed(s);
      hide Inv;
      t := FreeReader(s);
    } else {
      WaitingHoldsReader(s);
      hide Inv;
      t := FreeCaller(s);
      LeadsKeepsInv(s, t);
    }
  }

  // ---- From a panic event to the runner ----

  /** The runner has the panic, after one pause and one close. */
  predicate Reported(t: Sys) {
    t.panicDetected && t.panicCloses == 1 && t.pausesReturned == 1
  }

  ghost predicate ReportsPanic(s: Sys) {
    exists t :: Leads(s, t) && Reported(t)
  }

  lemma ReportsBy(s: Sys, a: Action)
    requires Own(s, a) && Next(s, a).Some? && ReportsPanic(Next(s, a).value)
    ensures ReportsPanic(s)
  {
    hide Next, Own, Leads;
    var t :| Leads(Next(s, a).value, t) && Reported(t);
    LeadsBy(s, a, t);
  }

  lemma ReportsAfter(s: Sys, t: Sys)
    requires Leads(s, t) && ReportsPanic(t)
    ensures ReportsPanic(s)
  {
    hide Leads;
    var u :| Leads(t, u) && Reported(u);
    LeadsOn(s, t, u);
  }

  lemma HandlerCounts(s: Sys)
    requires Inv(s)
    ensures s.pausesReturned == (if s.handler.Paused? || s.handler.Signalled? then 1 else 0)
    ensures s.panicCloses == (if s.handler.Signalled? then 1 else 0)
    ensures s.handler.Pausing? <==> s.calls.caller.Waiting? && s.calls.caller.byHandler
    ensures s.panicDetected ==> s.handler.Signalled?
  {
    hide CallsOk, HubOk;
  }

  /** Once the pause is under way nothing can keep the panic from the runner. */
  lemma PausedIsReported(s: Sys)
    requires Inv(s) && (s.handler.Pausing? || s.handler.Paused? || s.handler.Signalled?)
    ensures ReportsPanic(s)
  {
    HandlerCounts(s);
    hide Inv, ReportsPanic, Next;
    if s.handler.Pausing? {
      PauseTimesOut(s);
      SignalIsReported(Next(s, CallGivesUp).value);
      ReportsBy(s, CallGivesUp);
    } else if s.handler.Paused? {
      SignalIsReported(s);
    } else {
      SignalledIsReported(s);
    }
  }

  lemma PauseTimesOut(s: Sys)
    requires s.handler.Pausing? && s.calls.caller.Waiting? && s.calls.caller.byHandler && s.pausesReturned == 0
    ensures Next(s, CallGivesUp).Some? && Own(s, CallGivesUp)
    ensures var t := Next(s, CallGivesUp).value;
      t.handler.Paused? && t.pausesReturned == 1 && t.panicCloses == s.panicCloses
  {
  }

  lemma SignalIsReported(s: Sys)
    requires s.handler.Paused? && s.pausesReturned == 1 && s.panicCloses == 0
    ensures ReportsPanic(s)
  {
    hide ReportsPanic;
    SignalledIsReported(Next(s, HandlerSignals).value);
    ReportsBy(s, HandlerSignals);
  }

  lemma SignalledIsReported(s: Sys)
    requires s.panicCloses == 1 && s.pausesReturned == 1
    ensures ReportsPanic(s)
  {
    hide Leads;
    var t := Next(s, RunnerSeesPanic).value;
    LeadsNowhere(t);
    assert Reported(t);
    ReportsBy(s, RunnerSeesPanic);
  }

  lemma PauseNextIsReported(s: Sys)
    requires Inv(s) && MuFree(s) && s.handler.PauseNext?
    ensures ReportsPanic(s)
  {
    hide Inv, ReportsPanic;
    StepKeepsInv(s, PauseBegins);
    PausedIsReported(Next(s, PauseBegins).value);
    ReportsBy(s, PauseBegins);
  }

  lemma FreeIsReported(s: Sys)
    requires Inv(s) && MuFree(s) && (s.handler.Seen? || s.handler.PauseNext?)
    ensures ReportsPanic(s)
  {
    hide Inv, ReportsPanic;
    if s.handler.Seen? {
      StepKeepsInv(s, HandlerUnsubscribes);
      PauseNextIsReported(Next(s, HandlerUnsubscribes).value);
      ReportsBy(s, HandlerUnsubscribes);
    } else {
      PauseNextIsReported(s);
    }
  }

  /** The handler has a panic event in its slot, or has taken it and not yet begun to pause. */
  predicate PanicInHand(s: Sys) {
    || s.handler.Seen? || s.handler.PauseNext?
    || (s.handler.Watching? && s.handler.id in s.hub.chans
        && s.hub.chans[s.handler.id].slot in {["GUEST_PANICKED"], ["GUEST_CRASHLOADED"]})
  }

  lemma TakenIsReported(s: Sys)
    requires Inv(s) && (s.handler.Seen? || s.handler.PauseNext?) && MutexComesFree(s)
    ensures ReportsPanic(s)
  {
    hide Inv, ReportsPanic, Leads, Deliverable;
    var t := FreeMutex(s);
    FreeIsReported(t);
    ReportsAfter(s, t);
  }

  /** While another call waits for a reply that is out of reach, the handler gets nowhere. */
  predicate Held(s: Sys) {
    && s.calls.caller.Waiting? && !s.calls.caller.byHandler && !Deliverable(s)
    && (s.handler.NotStarted? || s.handler.Watching? || s.handler.Leaving? || s.handler.Seen? || s.handler.PauseNext?)
    && !s.panicDetected
  }

  lemma HeldStep(s: Sys, a: Action)
    requires Inv(s) && Held(s) && Own(s, a) && Next(s, a).Some?
    ensures Held(Next(s, a).value)
  {
    HeldCallStep(s, a);
    HandlerCounts(s);
    hide Inv, Deliverable;
    HeldHandlerStep(s, a);
    hide Next, Own;
  }

  lemma HeldHandlerStep(s: Sys, a: Action)
    requires s.calls.caller.Waiting? && !s.calls.caller.byHandler && s.panicCloses == 0
    requires s.handler.NotStarted? || s.handler.Watching? || s.handler.Leaving? || s.handler.Seen?
             || s.handler.PauseNext?
    requires Own(s, a) && Next(s, a).Some?
    ensures var t := Next(s, a).value;
      && (t.handler.NotStarted? || t.handler.Watching? || t.handler.Leaving? || t.handler.Seen?
          || t.handler.PauseNext?)
      && t.panicDetected == s.panicDetected
  {
  }

  lemma HeldCallStep(s: Sys, a: Action)
    requires Inv(s) && s.calls.caller.Waiting? && !s.calls.caller.byHandler && !Deliverable(s)
    requires Own(s, a) && Next(s, a).Some?
    ensures var t := Next(s, a).value;
      t.calls.caller == s.calls.caller && !Deliverable(t) && (s.reader.Gone? <==> t.reader.Gone?)
  {
    hide Deliverable, Inv;
    WaitingStays(s, a);
    WaitingHoldsReader(s);
  }

  lemma {:induction false} HeldRun(s: Sys, acts: seq<Action>)
    requires Inv(s) && Held(s) && OwnRun(s, acts) && Run(s, acts).Some?
    ensures Held(Run(s, acts).value)
    decreases |acts|
  {
    hide Inv, Held, Own, Next;
    if acts != [] {
      HeldStep(s, acts[0]);
      StepKeepsInv(s, acts[0]);
      HeldRun(Next(s, acts[0]).value, acts[1..]);
    }
  }

  lemma HeldForever(s: Sys, t: Sys)
    requires Inv(s) && Held(s) && Leads(s, t)
    ensures !t.panicDetected
  {
    hide Inv, OwnRun;
    var acts :| OwnRun(s, acts) && Run(s, acts) == Some(t);
    HeldRun(s, acts);
  }

  /** From every reachable state in which the handler has a panic event in hand, the program's own steps
      bring it to the runner, after one pause and one close of the channel, if and only if no call waits or
      the reply to the call that waits is deliverable. */
  lemma PanicReportedIff(s: Sys)
    requires Reachable(s) && PanicInHand(s)
    ensures ReportsPanic(s) <==> s.calls.caller.Idle? || Deliverable(s)
  {
    ReachableOk(s);
    HandlerCounts(s);
    hide Inv, Leads, Deliverable, Reachable;
    if MutexComesFree(s) {
      if s.handler.Watching? {
        PanicIsTaken(s);
        var t := Next(s, HandlerReceives).value;
        StepKeepsInv(s, HandlerReceives);
        TakenIsReported(t);
        ReportsBy(s, HandlerReceives);
      } else {
        TakenIsReported(s);
      }
    } else if ReportsPanic(s) {
      var t :| Leads(s, t) && Reported(t);
      HeldForever(s, t);
    }
  }

  lemma PanicIsTaken(s: Sys)
    requires PanicInHand(s) && s.handler.Watching?
    ensures Next(s, HandlerReceives).Some? && Own(s, HandlerReceives)
    ensures var t := Next(s, HandlerReceives).value;
      t.handler == Seen(s.handler.id) && (MutexComesFree(s) ==> MutexComesFree(t))
  {
    var slot := s.hub.chans[s.handler.id].slot;
    assert slot == ["GUEST_PANICKED"] || slot == ["GUEST_CRASHLOADED"];
  }

  /** When a call stands in the way, giving it up is enough. */
  lemma PanicReportedOnceGivenUp(s: Sys)
    requires Reachable(s) && PanicInHand(s) && s.calls.caller.Waiting?
    ensures ReportsPanic(Next(s, CallGivesUp).value)
  {
    ReachableOk(s);
    HandlerCounts(s);
    hide Inv, ReportsPanic;
    ReachableThen(s, CallGivesUp);
    PanicReportedIff(Next(s, CallGivesUp).value);
  }

  /** A panic event that the reader has in hand while the handler watches an empty slot is reported. */
  lemma DispatchedPanicIsReported(s: Sys)
    requires Reachable(s) && MuFree(s)
    requires s.reader == WantsDispatch("GUEST_PANICKED") || s.reader == WantsDispatch("GUEST_CRASHLOADED")
    requires s.handler.Watching? && s.handler.id in s.hub.listeners
    requires s.handler.id in s.hub.chans && s.hub.chans[s.handler.id].slot == []
    ensures ReportsPanic(s)
  {
    hide ReportsPanic, Leads, Reachable, Run;
    var t := Dispatched(s);
    LeadsReachable(s, t);
    assert PanicInHand(t);
    PanicReportedIff(t);
    ReportsAfter(s, t);
  }

  lemma LeadsReachable(s: Sys, t: Sys)
    requires Reachable(s) && Leads(s, t)
    ensures Reachable(t)
  {
    var before :| Run(INIT, before) == Some(s);
    var acts :| OwnRun(s, acts) && Run(s, acts) == Some(t);
    RunOn(INIT, before, acts);
  }

  lemma {:induction false} RunOn(s: Sys, acts: seq<Action>, more: seq<Action>)
    requires Run(s, acts).Some?
    ensures Run(s, acts + more) == Run(Run(s, acts).value, more)
    decreases acts
  {
    hide Next;
    if acts == [] {
      assert acts + more == more;
    } else {
      RunOn(Next(s, acts[0]).value, acts[1..], more);
      assert (acts + more)[0] == acts[0] && (acts + more)[1..] == acts[1..] + more;
    }
  }

  // ---- Events reach their subscribers ----

  /** The reader dispatches the event it has in hand to every listener. */
  lemma Dispatched(s: Sys) returns (t: Sys)
    requires Reachable(s) && MuFree(s) && s.reader.WantsDispatch?
    ensures s.hub.listeners <= s.hub.chans.Keys && Leads(s, t)
    ensures t == s.(reader := Reading, hub := OfferAll(Logged(s.hub, s.reader.event), s.hub.listeners, s.reader.event))
  {
    ReachableOk(s);
    hide Leads, OfferAll, Reachable;
    TodoIsListed(s);
    hide Inv;
    StepKeepsInv(s, LockDispatch);
    var u := Next(s, LockDispatch).value;
    SendAll(u);
    t := AfterSends(u);
    LeadsBy(s, LockDispatch, t);
  }

  /** An event that the reader has in hand is received by any other subscriber with an empty slot. */
  lemma DispatchedIsReceived(s: Sys, id: nat)
    requires Reachable(s) && MuFree(s) && s.reader.WantsDispatch? && !HandlersOwn(s, id)
    requires id in s.hub.listeners && id in s.hub.chans && s.hub.chans[id].slot == []
    ensures exists t :: Leads(s, t) && id in t.hub.chans && t.hub.chans[id].got == s.hub.chans[id].got + [s.reader.event]
  {
    hide Leads, Reachable, Run;
    var t := Dispatched(s);
    var u := Next(t, Receives(id)).value;
    LeadsNowhere(u);
    LeadsBy(t, Receives(id), u);
    LeadsOn(s, t, u);
  }

  // ---- The end of the loop ----

  /** The reader is gone, and every channel there was has been closed. */
  ghost predicate AllClosed(t: Sys) {
    t.reader.Gone? && t.hub.listeners == {} && forall id | id in t.hub.chans :: !t.hub.chans[id].open
  }

  ghost predicate ClosesAll(s: Sys) {
    exists t :: Leads(s, t) && AllClosed(t)
  }

  /** After a hang-up the program's own steps end the reader and close every channel if and only if no
      call but the handler's pause holds the mutex for a reply that is out of reach. */
  lemma HangUpClosesAllIff(s: Sys)
    requires Reachable(s) && s.hungUp && !s.reader.Gone?
    ensures ClosesAll(s) <==> s.calls.caller.Idle? || s.calls.caller.byHandler || Deliverable(s)
  {
    ReachableOk(s);
    HandlerCounts(s);
    hide Inv, Leads, Deliverable, Reachable, AllClosed;
    if s.handler.Pausing? {
      var t := Next(s, CallGivesUp).value;
      StepKeepsInv(s, CallGivesUp);
      FreeClosesAll(t);
      var u :| Leads(t, u) && AllClosed(u);
      LeadsBy(s, CallGivesUp, u);
    } else if MutexComesFree(s) {
      FreeClosesAll(s);
    } else if ClosesAll(s) {
      var t :| Leads(s, t) && AllClosed(t);
      HeldReader(s, t);
    }
  }

  /** While another call waits for a reply that is out of reach, the reader does not leave. */
  lemma HeldReader(s: Sys, t: Sys)
    requires Inv(s) && s.calls.caller.Waiting? && !s.calls.caller.byHandler && !Deliverable(s) && !s.reader.Gone?
    requires Leads(s, t)
    ensures !AllClosed(t)
  {
    hide Inv, OwnRun;
    var acts :| OwnRun(s, acts) && Run(s, acts) == Some(t);
    HeldReaderRun(s, acts);
  }

  lemma {:induction false} HeldReaderRun(s: Sys, acts: seq<Action>)
    requires Inv(s) && s.calls.caller.Waiting? && !s.calls.caller.byHandler && !Deliverable(s) && !s.reader.Gone?
    requires OwnRun(s, acts) && Run(s, acts).Some?
    ensures !Run(s, acts).value.reader.Gone?
    decreases |acts|
  {
    hide Inv, Own, Next, Deliverable;
    if acts != [] {
      HeldCallStep(s, acts[0]);
      StepKeepsInv(s, acts[0]);
      HeldReaderRun(Next(s, acts[0]).value, acts[1..]);
    }
  }

  lemma FreeClosesAll(s: Sys)
    requires Inv(s) && s.hungUp && !s.reader.Gone? && !s.handler.Pausing? && MutexComesFree(s)
    ensures ClosesAll(s)
  {
    hide Leads, Deliverable, AllClosed, CloseAll;
    TodoIsListed(s);
    EverythingCloses(s);
    hide Inv;
    var t := FreeMutex(s);
    if !t.reader.Gone? {
      var u := ReaderLeaves(t);
      LeadsOn(s, t, u);
    }
  }

  lemma EverythingCloses(s: Sys)
    requires Inv(s) && s.hub.listeners <= s.hub.chans.Keys
    ensures forall t: Sys :: t.reader.Gone? && t.hub == CloseAll(s.hub, s.hub.listeners) ==> AllClosed(t)
  {
    hide CallsOk, HandlerOk, ChannelOk, LogOk;
  }

  lemma ReaderCloses(s: Sys) returns (t: Sys)
    requires Inv(s) && s.reader.WantsClose? && MuFree(s)
    ensures Leads(s, t) && AllClosed(t)
  {
    hide Leads, AllClosed, CloseAll;
    StepKeepsInv(s, LockClose);
    var u := Next(s, LockClose).value;
    TodoIsListed(u);
    EverythingCloses(u);
    hide Inv;
    CloseEach(u);
    t := AfterCloses(u);
    LeadsBy(s, LockClose, t);
  }

  lemma ReaderFails(s: Sys) returns (t: Sys)
    requires Inv(s) && s.hungUp && s.reader.Reading? && MuFree(s)
    ensures Leads(s, t) && AllClosed(t)
  {
    hide Leads, AllClosed, Inv;
    StepKeepsInv(s, ReadFails);
    t := ReaderCloses(Next(s, ReadFails).value);
    LeadsBy(s, ReadFails, t);
  }

  /** With the mutex free, the reader finishes its event, fails to read, and closes the listeners. */
  lemma ReaderLeaves(s: Sys) returns (t: Sys)
    requires Inv(s) && s.hungUp && !s.reader.Gone? && MuFree(s)
    ensures Leads(s, t) && AllClosed(t)
  {
    hide Leads, AllClosed, Inv, OfferAll;
    if s.reader.WantsClose? {
      t := ReaderCloses(s);
    } else if s.reader.Reading? {
      t := ReaderFails(s);
    } else {
      StepKeepsInv(s, LockDispatch);
      var u := Next(s, LockDispatch).value;
      TodoIsListed(u);
      SendAll(u);
      var v := AfterSends(u);
      LeadsBy(s, LockDispatch, v);
      LeadsKeepsInv(s, v);
      t := ReaderFails(v);
      LeadsOn(s, v, t);
    }
  }

  /** A handler that stops watching leaves the listener table. */
  lemma HandlerLeaves(s: Sys)
    requires Reachable(s) && s.handler.Watching? && MutexComesFree(s)
    ensures exists t :: Leads(s, t) && t.handler == Quit && s.handler.id !in t.hub.listeners
  {
    ReachableOk(s);
    hide Inv, Leads, Reachable;
    StepKeepsInv(s, HandlerStops);
    var t := Next(s, HandlerStops).value;
    assert MutexComesFree(t);
    hide Next, MutexComesFree;
    var u := FreeMutex(t);
    LeadsBy(s, HandlerStops, u);
    UnsubscribeUnlists(u);
    var v := Next(u, HandlerUnsubscribes).value;
    LeadsOn(s, u, v);
  }

  lemma UnsubscribeUnlists(s: Sys)
    requires Inv(s) && s.handler.Leaving? && MuFree(s)
    ensures Next(s, HandlerUnsubscribes).Some?
    ensures var t := Next(s, HandlerUnsubscribes).value;
      Leads(s, t) && t.handler == Quit && s.handler.id !in t.hub.listeners
  {
    hide Leads;
    TodoIsListed(s);
    hide Inv;
    var t := Next(s, HandlerUnsubscribes).value;
    LeadsNowhere(t);
    LeadsBy(s, HandlerUnsubscribes, t);
  }

  /** All of it happens: a run in which the pause gets its own reply and the runner sees the panic. */
  lemma PanicIsReported()
    ensures exists s :: Reachable(s) && Reported(s) && s.calls.done == [Completed(0, 0, 0)]
  {
    var s0 := PauseAnswered();
    hide Reachable, Run;
    ReachableThen(s0, HandlerSignals);
    var s1 := Next(s0, HandlerSignals).value;
    ReachableThen(s1, RunnerSeesPanic);
    assert Reported(Next(s1, RunnerSeesPanic).value);
  }

  lemma PauseAnswered() returns (s: Sys)
    ensures Reachable(s) && s.handler.Paused? && s.pausesReturned == 1 && s.panicCloses == 0
    ensures s.calls.done == [Completed(0, 0, 0)]
  {
    var s0 := ReplyArrives();
    hide Reachable, Run;
    ReachableThen(s0, CallTakes);
    s := Next(s0, CallTakes).value;
  }

  lemma ReplyArrives() returns (s: Sys)
    ensures Reachable(s) && s.handler.Pausing? && s.pausesReturned == 0 && s.panicCloses == 0
    ensures s.calls == Begin(NO_CALLS, true).(answered := 1, queue := [0])
  {
    var s0 := PauseStarts();
    hide Reachable, Run;
    ReachableThen(s0, QemuReplies);
    var s1 := Next(s0, QemuReplies).value;
    assert s1.wire == [Reply(0)];
    ReachableThen(s1, ReadLine);
    s := Next(s1, ReadLine).value;
  }
}
