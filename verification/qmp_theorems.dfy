/** What holds in every run of the QMP pipeline, and the runs that show where it stops. */
module QmpTheorems {
  import opened Wrappers
  import opened QmpHub
  import opened QmpCalls
  import opened QmpSystem

  // ---- Pairing of commands and replies ----

  /** In every run, with any number of calls given up: a completed Execute returned the reply to its
      own command if and only if no Execute had been given up before it; otherwise it returned an
      older one. */
  lemma OwnReplyIffNoneAbandoned(s: Sys, r: Completed)
    requires Reachable(s) && r in s.calls.done
    ensures r.reply == r.command <==> r.abandonedBefore == 0
    ensures r.abandonedBefore > 0 ==> r.reply < r.command
  {
    ReachableOk(s);
    hide HubOk, HandlerOk;
    assert Paired(s.calls);
  }

  /** While fewer than 16 calls have been given up no reply is ever dropped, the n-th reply consumed
      answers the n-th command written, and written minus consumed is the calls given up plus the
      one waiting. */
  lemma NoReplyLostBelowSixteen(s: Sys)
    requires Reachable(s)
    ensures s.calls.issued - |s.calls.done| == s.calls.abandoned + (if s.calls.caller.Waiting? then 1 else 0)
    ensures s.calls.abandoned < 16 ==> s.calls.dropped == 0
    ensures s.calls.dropped == 0 ==> forall n :: 0 <= n < |s.calls.done| ==> s.calls.done[n].reply == n
  {
    var acts :| Run(INIT, acts) == Some(s);
    InitOk();
    DropsNeedSixteen(INIT, acts);
    ReachableOk(s);
    hide HubOk, HandlerOk;
    assert CountsOk(s.calls, Outstanding(s.calls, s.wire)) && InOrder(s.calls, Outstanding(s.calls, s.wire));
  }

  ghost predicate DropsPaidFor(s: Sys) {
    s.calls.dropped > 0 ==> s.calls.abandoned >= RESPONSE_SLOTS
  }

  lemma {:induction false} DropsNeedSixteen(s: Sys, acts: seq<Action>)
    requires Inv(s) && DropsPaidFor(s) && Run(s, acts).Some?
    ensures DropsPaidFor(Run(s, acts).value)
    decreases acts
  {
    if acts != [] {
      DropStep(s, acts[0]);
      StepKeepsInv(s, acts[0]);
      DropsNeedSixteen(Next(s, acts[0]).value, acts[1..]);
    }
    hide Inv, Next;
  }

  lemma DropStep(s: Sys, a: Action)
    requires Inv(s) && DropsPaidFor(s) && Next(s, a).Some?
    ensures DropsPaidFor(Next(s, a).value)
  {
    hide HubOk, HandlerOk;
    if a.ReadLine? && s.wire[0].Reply? {
      SplitAtHead(s.calls, s.wire);
      PushFits(s.calls, s.wire[0].command, RepliesIn(s.wire[1..]) + Range(s.calls.answered, s.calls.issued));
    }
    hide CallsOk;
  }

  /** A run can be extended by one enabled action. */
  lemma {:induction false} RunThen(s: Sys, acts: seq<Action>, a: Action)
    requires Run(s, acts).Some? && Next(Run(s, acts).value, a).Some?
    ensures Run(s, acts + [a]) == Next(Run(s, acts).value, a)
    decreases acts
  {
    hide Next;
    if acts == [] {
      assert [a][1..] == [] && acts + [a] == [a];
      assert Run(Next(s, a).value, []) == Next(s, a);
    } else {
      RunThen(Next(s, acts[0]).value, acts[1..], a);
      assert (acts + [a])[1..] == acts[1..] + [a];
      assert (acts + [a])[0] == acts[0];
    }
  }

  lemma ReachableThen(s: Sys, a: Action)
    requires Reachable(s) && Next(s, a).Some?
    ensures Reachable(Next(s, a).value)
  {
    hide Next;
    var acts :| Run(INIT, acts) == Some(s);
    RunThen(INIT, acts, a);
  }

  lemma InitReachable()
    ensures Reachable(INIT)
  {
    assert Run(INIT, []) == Some(INIT);
  }

  /** The state after k calls, each answered, read and given up. */
  function GivenUp(k: nat): Sys {
    INIT.(calls := NO_CALLS.(issued := k, answered := k, queue := Range(0, k), abandoned := k))
  }

  lemma {:induction false} GivenUpReachable(k: nat)
    requires k <= RESPONSE_SLOTS
    ensures Reachable(GivenUp(k))
  {
    if k == 0 {
      InitReachable();
      assert GivenUp(0) == INIT;
    } else {
      GivenUpReachable(k - 1);
      OneMoreGivenUp(k - 1);
    }
  }

  lemma OneMoreGivenUp(k: nat)
    requires k < RESPONSE_SLOTS && Reachable(GivenUp(k))
    ensures Reachable(GivenUp(k + 1))
  {
    hide Reachable, Run;
    var s0 := GivenUp(k);
    ReachableThen(s0, CallBegins);
    var s1 := Next(s0, CallBegins).value;
    ReachableThen(s1, QemuReplies);
    var s2 := Next(s1, QemuReplies).value;
    assert s2.wire == [Reply(k)];
    ReachableThen(s2, ReadLine);
    var s3 := Next(s2, ReadLine).value;
    assert s3.wire == [] && s3.calls.queue == Range(0, k) + [k] == Range(0, k + 1);
    ReachableThen(s3, CallGivesUp);
  }

  /** Sixteen is exact: with 16 calls given up the reply of the next one can be dropped. */
  lemma SixteenAbandonedCanDrop()
    ensures exists s :: Reachable(s) && s.calls.abandoned == 16 && s.calls.dropped == 1
  {
    hide Run;
    GivenUpReachable(RESPONSE_SLOTS);
    var s0 := GivenUp(RESPONSE_SLOTS);
    ReachableThen(s0, CallBegins);
    var s1 := Next(s0, CallBegins).value;
    ReachableThen(s1, QemuReplies);
    var s2 := Next(s1, QemuReplies).value;
    ReachableThen(s2, ReadLine);
    assert Next(s2, ReadLine).value.calls.dropped == 1;
  }

  /** An old reply is returned: the first call was given up, the second returned its reply. */
  lemma OldReplyIsReturned()
    ensures exists s :: Reachable(s) && s.calls.done == [Completed(1, 0, 1)]
  {
    hide Run;
    GivenUpReachable(1);
    var s0 := GivenUp(1);
    ReachableThen(s0, CallBegins);
    var s1 := Next(s0, CallBegins).value;
    ReachableThen(s1, CallTakes);
    assert Next(s1, CallTakes).value.calls.done == [Completed(1, 0, 1)];
  }

  // ---- Listeners ----

  /** In every run no channel is closed twice or sent to after its close, the table lists exactly
      the open channels, and ids are never reused. */
  lemma ListenersAreSafe(s: Sys)
    requires Reachable(s)
    ensures !s.hub.fault
    ensures forall id: nat :: id in s.hub.listeners <==> id in s.hub.chans && s.hub.chans[id].open
    ensures forall id: nat :: id in s.hub.chans <==> id < s.hub.nextId
  {
    ReachableOk(s);
    hide CallsOk, HandlerOk, ChannelOk, LogOk;
  }

  /** What a subscriber received is the dispatch log read at the moments its slot was emptied: the
      k-th event received is the first one dispatched after the k-th emptying, and the slot holds
      the first one dispatched since the last. */
  lemma ReceivedExactly(s: Sys, id: nat)
    requires Reachable(s) && id in s.hub.chans
    ensures var c := s.hub.chans[id];
      && |c.freed| == |c.got| + 1 && c.freed[0] == 0
      && (forall i, j :: 0 <= i < j < |c.freed| ==> c.freed[i] < c.freed[j])
      && c.since + |c.offered| <= |s.hub.dispatched|
      && (forall k :: 0 <= k < |c.got| ==>
            c.freed[k] < |c.offered| && c.got[k] == s.hub.dispatched[c.since + c.freed[k]])
      && (c.slot == [] <==> c.freed[|c.got|] == |c.offered|)
      && (c.slot != [] ==> c.freed[|c.got|] < |c.offered|
                           && c.slot == [s.hub.dispatched[c.since + c.freed[|c.got|]]])
      && (c.open && !s.reader.Sending? ==> c.since + |c.offered| == |s.hub.dispatched|)
  {
    ReachableOk(s);
    hide CallsOk, HandlerOk, Reachable;
    var c := s.hub.chans[id];
    assert ChannelOk(c) && LogOk(c, s.hub.dispatched, Owed(id, Todo(s), Current(s)));
    hide HubOk;
    OfferedIsLogged(c, s.hub.dispatched, Owed(id, Todo(s), Current(s)));
    hide LogOk;
  }

  lemma OfferedIsLogged(c: Channel, dispatched: seq<string>, owed: seq<string>)
    requires LogOk(c, dispatched, owed)
    ensures c.since + |c.offered| <= |dispatched|
    ensures forall p :: 0 <= p < |c.offered| ==> c.offered[p] == dispatched[c.since + p]
    ensures c.open && owed == [] ==> c.since + |c.offered| == |dispatched|
  {
    var tail := dispatched[c.since..];
    assert c.offered <= tail;
    assert forall p :: 0 <= p < |c.offered| ==> c.offered[p] == tail[p] == dispatched[c.since + p];
  }

  /** The last emptying of the slot at or before position p. */
  lemma {:induction false} LastFreed(freed: seq<nat>, p: nat) returns (k: nat)
    requires freed != [] && freed[0] <= p
    ensures k < |freed| && freed[k] <= p && (k + 1 < |freed| ==> p < freed[k + 1])
    decreases |freed|
  {
    if freed[|freed| - 1] <= p {
      k := |freed| - 1;
    } else {
      k := LastFreed(freed[..|freed| - 1], p);
    }
  }

  /** Event p came while the slot still held an earlier event: the one kept at its k-th emptying, which
      was received later or is in the slot now. */
  ghost predicate Behind(c: Channel, k: nat, p: nat) {
    && k <= |c.got| < |c.freed| && c.freed[k] < p < |c.offered|
    && if k < |c.got| then p < c.freed[k + 1] && c.got[k] == c.offered[c.freed[k]]
       else c.slot == [c.offered[c.freed[k]]]
  }

  /** Event p was the first after the k-th emptying: it was received, or is in the slot now. */
  ghost predicate Kept(c: Channel, k: nat, p: nat) {
    && k <= |c.got| < |c.freed| && c.freed[k] == p < |c.offered|
    && if k < |c.got| then c.got[k] == c.offered[p] else c.slot == [c.offered[p]]
  }

  /** The fate of every event offered: it was dropped if and only if an event kept before it still held
      the slot, and it is received or waiting in the slot if and only if it was not dropped. */
  lemma LostOnlyBehindAnother(s: Sys, id: nat, p: nat)
    requires Reachable(s) && id in s.hub.chans && p < |s.hub.chans[id].offered|
    ensures p in s.hub.chans[id].dropped <==> exists k :: Behind(s.hub.chans[id], k, p)
    ensures p !in s.hub.chans[id].dropped <==> exists k :: Kept(s.hub.chans[id], k, p)
  {
    ReachableOk(s);
    hide CallsOk, HandlerOk, LogOk, Reachable;
    var c := s.hub.chans[id];
    assert ChannelOk(c);
    hide HubOk;
    FateOf(c, p);
  }

  lemma FateOf(c: Channel, p: nat)
    requires ChannelOk(c) && p < |c.offered|
    ensures p in c.dropped <==> exists k :: Behind(c, k, p)
    ensures p !in c.dropped <==> exists k :: Kept(c, k, p)
  {
    var k := LastFreed(c.freed, p);
    if c.freed[k] == p {
      assert Kept(c, k, p);
      forall j
        ensures !Behind(c, j, p)
      {
        if 0 <= j < k {
          assert c.freed[j + 1] <= c.freed[k];
        }
      }
    } else {
      assert Behind(c, k, p);
      assert forall j :: 0 <= j < |c.freed| ==> j <= k || c.freed[k + 1] <= c.freed[j];
      assert p !in c.freed;
    }
  }

  /** While the handler watches, a panic event has been offered to it and either still waits in its slot
      or was dropped; it was dropped if and only if an earlier event still held the slot, and an event
      received in its place is of another kind. */
  lemma PanicMissedOnlyBehindAnother(s: Sys, p: nat)
    requires Reachable(s) && s.handler.Watching? && s.handler.id in s.hub.chans
    requires p < |s.hub.chans[s.handler.id].offered| && IsPanic(s.hub.chans[s.handler.id].offered[p])
    ensures var c := s.hub.chans[s.handler.id];
      && c.since + p < |s.hub.dispatched| && s.hub.dispatched[c.since + p] == c.offered[p]
      && |c.freed| == |c.got| + 1
      && (p in c.dropped <==> exists k: nat :: Behind(c, k, p) && (k < |c.got| ==> !IsPanic(c.got[k])))
      && (p !in c.dropped <==> c.slot == [c.offered[p]] && c.freed[|c.got|] == p)
  {
    ReachableOk(s);
    HandlerIsCalm(s);
    hide CallsOk, HandlerOk, Reachable;
    var c := s.hub.chans[s.handler.id];
    assert ChannelOk(c) && LogOk(c, s.hub.dispatched, Owed(s.handler.id, Todo(s), Current(s)));
    hide HubOk, ChannelOk, LogOk, IsPanic;
    OfferedWasDispatched(c, s.hub.dispatched, Owed(s.handler.id, Todo(s), Current(s)), p);
    PanicFate(c, p);
  }

  lemma PanicFate(c: Channel, p: nat)
    requires ChannelOk(c) && p < |c.offered| && IsPanic(c.offered[p])
    requires forall e | e in c.got :: !IsPanic(e)
    ensures |c.freed| == |c.got| + 1
    ensures p in c.dropped <==> exists k: nat :: Behind(c, k, p) && (k < |c.got| ==> !IsPanic(c.got[k]))
    ensures p !in c.dropped <==> c.slot == [c.offered[p]] && c.freed[|c.got|] == p
  {
    hide IsPanic;
    FateOf(c, p);
    assert forall k :: 0 <= k < |c.got| ==> c.got[k] in c.got;
    if c.slot == [c.offered[p]] && c.freed[|c.got|] == p {
      assert Kept(c, |c.got|, p);
    }
  }

  lemma OfferedWasDispatched(c: Channel, dispatched: seq<string>, owed: seq<string>, p: nat)
    requires LogOk(c, dispatched, owed) && p < |c.offered|
    ensures c.since + p < |dispatched| && dispatched[c.since + p] == c.offered[p]
  {
    var tail := dispatched[c.since..];
    assert c.offered <= tail;
    assert tail[p] == c.offered[p];
  }

  lemma HandlerIsCalm(s: Sys)
    requires Reachable(s) && s.handler.Watching?
    ensures CalmSoFar(s.hub, s.handler.id)
  {
    ReachableOk(s);
    hide CallsOk, HubOk, CalmSoFar;
  }

  /** Which happens: here the handler
      watches, a STOP sits unread, and the panic event that follows is never delivered. */
  lemma PanicEventCanBeLost()
    ensures exists s ::
      && Reachable(s) && s.handler == Watching(0) && s.reader == Reading && s.wire == []
      && s.hub.dispatched == ["STOP", "GUEST_PANICKED"]
      && 0 in s.hub.chans && s.hub.chans[0].open
      && s.hub.chans[0].slot == [] && s.hub.chans[0].got == ["STOP"]
  {
    InitReachable();
    ReachableThen(INIT, HandlerSubscribes);
    var s0 := Next(INIT, HandlerSubscribes).value;
    var s1 := EventDelivered(s0, "STOP");
    assert s1.hub.listeners == {0} && s1.hub.chans.Keys == {0};
    var s2 := EventDelivered(s1, "GUEST_PANICKED");
    ReachableThen(s2, HandlerReceives);
    var s3 := Next(s2, HandlerReceives).value;
    assert s3.hub.dispatched == ["STOP", "GUEST_PANICKED"];
  }

  /** One event goes from QEMU to the only listener. */
  lemma EventDelivered(s: Sys, e: string) returns (t: Sys)
    requires Reachable(s) && s.wire == [] && !s.hungUp && s.reader == Reading && MuFree(s) && e != ""
    requires s.hub.listeners == {0} && 0 in s.hub.chans
    ensures Reachable(t)
    ensures t == s.(hub := OfferTo(Logged(s.hub, e), 0, e))
  {
    ReachableThen(s, QemuEmits(e));
    var a := Next(s, QemuEmits(e)).value;
    ReachableThen(a, ReadLine);
    var b := Next(a, ReadLine).value;
    assert b.wire == [];
    ReachableThen(b, LockDispatch);
    var c := Next(b, LockDispatch).value;
    ReachableThen(c, SendTo(0));
    var d := Next(c, SendTo(0)).value;
    assert d.reader.todo == {};
    ReachableThen(d, FinishDispatch);
    t := Next(d, FinishDispatch).value;
  }

  // ---- The panic pipeline ----

  /** In every run: when the runner has seen the panic signal, a panic event was dispatched after
      the handler subscribed, the one attempt to pause had returned, and the channel was closed
      exactly once; it is never closed twice. */
  lemma PanicComesAfterPause(s: Sys)
    requires Reachable(s)
    ensures s.panicCloses <= 1
    ensures s.panicDetected ==>
      && s.handler.Signalled? && s.panicCloses == 1 && s.pausesReturned == 1
      && s.handler.id in s.hub.chans
      && exists k :: s.hub.chans[s.handler.id].since <= k < |s.hub.dispatched|
                     && s.hub.dispatched[k] in {"GUEST_PANICKED", "GUEST_CRASHLOADED"}
  {
    ReachableOk(s);
    hide CallsOk, HubOk;
  }

  // ---- Progress of Execute ----

  /** The first line of the stream that is not noise. */
  function NextReal(wire: seq<Line>): Option<Line> {
    if wire == [] then None
    else if wire[0].Noise? then NextReal(wire[1..])
    else Some(wire[0])
  }

  lemma NextRealAppend(wire: seq<Line>, m: Line)
    requires NextReal(wire).Some?
    ensures NextReal(wire + [m]) == NextReal(wire)
  {
    if wire[0].Noise? {
      NextRealAppend(wire[1..], m);
      assert (wire + [m])[1..] == wire[1..] + [m];
    }
  }

  /** A reply is queued, or the reader is free to reach one before any event. */
  predicate Deliverable(s: Sys) {
    || s.calls.queue != []
    || (s.reader.Reading? && NextReal(s.wire).Some? && NextReal(s.wire).value.Reply?)
  }

  /** The reader has an event in hand, or will have one before it reaches a reply, or is leaving:
      it waits for the mutex that the waiting call holds. */
  predicate Blocked(s: Sys) {
    && s.calls.queue == []
    && (!s.reader.Reading? || (NextReal(s.wire).Some? && NextReal(s.wire).value.Event?))
  }

  predicate FromQemu(a: Action) {
    a.QemuReplies? || a.QemuEmits? || a.QemuNoise? || a.QemuHangsUp?
  }

  function Reads(n: nat): seq<Action> {
    seq(n, _ => ReadLine)
  }

  /** When the reply is deliverable, the reader alone brings it in, one line at a time, and the call
      returns; the unread wire bounds the steps. */
  lemma {:induction false} DeliverableReturns(s: Sys) returns (n: nat)
    requires s.calls.caller.Waiting? && Deliverable(s)
    ensures n <= |s.wire|
    ensures Run(s, Reads(n) + [CallTakes]).Some?
    ensures var t := Run(s, Reads(n) + [CallTakes]).value;
      t.calls.caller.Idle? && |t.calls.done| == |s.calls.done| + 1
    decreases |s.wire|
  {
    if s.calls.queue != [] {
      n := 0;
      assert Reads(0) + [CallTakes] == [CallTakes];
      assert [CallTakes][1..] == [];
      assert Run(Next(s, CallTakes).value, []) == Next(s, CallTakes);
    } else {
      var t := Next(s, ReadLine).value;
      var m := DeliverableReturns(t);
      n := m + 1;
      assert (Reads(n) + [CallTakes])[0] == ReadLine;
      assert (Reads(n) + [CallTakes])[1..] == Reads(m) + [CallTakes];
    }
  }

  /** Without a reply in reach, no step but giving up ends the call: QEMU can help only while no
      event stands in the way, and when one does nothing helps. */
  lemma WaitingStays(s: Sys, a: Action)
    requires Inv(s) && s.calls.caller.Waiting? && !Deliverable(s) && Next(s, a).Some?
    requires !a.CallGivesUp? && (Blocked(s) || !FromQemu(a))
    ensures var t := Next(s, a).value;
      t.calls.caller == s.calls.caller && t.calls.done == s.calls.done && !Deliverable(t) && (Blocked(s) ==> Blocked(t))
  {
    hide CallsOk, HubOk, HandlerOk;
    if a.QemuReplies? && NextReal(s.wire).Some? {
      NextRealAppend(s.wire, Reply(s.calls.answered));
    }
    if a.QemuEmits? && NextReal(s.wire).Some? {
      NextRealAppend(s.wire, Event(a.event));
    }
    if a.QemuNoise? && NextReal(s.wire).Some? {
      NextRealAppend(s.wire, Noise);
    }
  }

  lemma {:induction false} WaitingStaysForever(s: Sys, acts: seq<Action>)
    requires Inv(s) && s.calls.caller.Waiting? && !Deliverable(s) && Run(s, acts).Some?
    requires forall a | a in acts :: !a.CallGivesUp? && (Blocked(s) || !FromQemu(a))
    ensures var t := Run(s, acts).value;
      t.calls.caller == s.calls.caller && t.calls.done == s.calls.done
    decreases acts
  {
    if acts != [] {
      assert acts[0] in acts;
      WaitingStays(s, acts[0]);
      StepKeepsInv(s, acts[0]);
      hide Inv, Next, Deliverable, Blocked;
      WaitingStaysForever(Next(s, acts[0]).value, acts[1..]);
    }
  }

  ghost predicate ReturnsAlone(s: Sys) {
    exists acts: seq<Action> ::
      && (forall a | a in acts :: !a.CallGivesUp? && !FromQemu(a))
      && Run(s, acts).Some? && |Run(s, acts).value.calls.done| > |s.calls.done|
  }

  /** From any reachable state with a call waiting, the program's own steps can return its reply
      without giving up if and only if the reply is deliverable. */
  lemma ReturnsIffDeliverable(s: Sys)
    requires Reachable(s) && s.calls.caller.Waiting?
    ensures ReturnsAlone(s) <==> Deliverable(s)
  {
    ReachableOk(s);
    hide Inv, Next;
    if Deliverable(s) {
      var n := DeliverableReturns(s);
      var acts := Reads(n) + [CallTakes];
      assert forall a | a in acts :: a == ReadLine || a == CallTakes;
    } else if ReturnsAlone(s) {
      var acts: seq<Action> :|
        && (forall a | a in acts :: !a.CallGivesUp? && !FromQemu(a))
        && Run(s, acts).Some? && |Run(s, acts).value.calls.done| > |s.calls.done|;
      WaitingStaysForever(s, acts);
    }
  }

  /** A blocked call is released by nothing but ctx or process exit, whatever QEMU sends. */
  lemma BlockedUntilGivenUp(s: Sys, acts: seq<Action>)
    requires Reachable(s) && s.calls.caller.Waiting? && Blocked(s)
    requires Run(s, acts).Some? && CallGivesUp !in acts
    ensures Run(s, acts).value.calls.caller == s.calls.caller
    ensures Run(s, acts).value.calls.done == s.calls.done
  {
    ReachableOk(s);
    hide Inv, Run;
    WaitingStaysForever(s, acts);
  }

  /** The mutual wait happens: an event arrives between a command and its reply, and the reply sits
      unread behind it. */
  lemma BlockedIsReachable()
    ensures exists s ::
      Reachable(s) && s.calls.caller.Waiting? && Blocked(s) && s.wire == [Reply(s.calls.caller.command)]
  {
    InitReachable();
    ReachableThen(INIT, CallBegins);
    var s1 := Next(INIT, CallBegins).value;
    ReachableThen(s1, QemuEmits("STOP"));
    var s2 := Next(s1, QemuEmits("STOP")).value;
    ReachableThen(s2, ReadLine);
    var s3 := Next(s2, ReadLine).value;
    ReachableThen(s3, QemuReplies);
    assert Blocked(Next(s3, QemuReplies).value);
  }

  /** A call that was blocked is still waiting, or was given up and has left its mark on every call
      completed since. */
  ghost predicate MarkedSince(before: Sys, s: Sys) {
    && |before.calls.done| <= |s.calls.done|
    && ((s.calls.caller == before.calls.caller && s.calls.done == before.calls.done && Blocked(s)
         && s.handler == before.handler)
        || s.calls.abandoned > before.calls.abandoned)
    && before.calls.abandoned <= s.calls.abandoned
    && forall n :: |before.calls.done| <= n < |s.calls.done| ==>
         s.calls.done[n].abandonedBefore > before.calls.abandoned
  }

  lemma MarkedStep(before: Sys, s: Sys, a: Action)
    requires Inv(s) && MarkedSince(before, s) && Next(s, a).Some?
    requires before.calls.caller.Waiting? && before.handler.Pausing?
    ensures MarkedSince(before, Next(s, a).value)
  {
    if s.calls.abandoned > before.calls.abandoned {
      hide Next, MarkedSince, Inv;
      MarkedAfterward(before, s, a);
    } else if a.CallGivesUp? {
      hide Next, MarkedSince, Inv;
      MarkedByGivingUp(before, s);
    } else {
      hide Blocked, Next, Inv;
      PauseWaiting(s, a);
    }
  }

  lemma MarkedByGivingUp(before: Sys, s: Sys)
    requires MarkedSince(before, s) && Next(s, CallGivesUp).Some?
    ensures MarkedSince(before, Next(s, CallGivesUp).value)
  {
    hide Blocked;
  }

  lemma BlockedMeansUndeliverable(s: Sys)
    requires Blocked(s)
    ensures !Deliverable(s)
  {
  }

  lemma MarkedAfterward(before: Sys, s: Sys, a: Action)
    requires MarkedSince(before, s) && s.calls.abandoned > before.calls.abandoned && Next(s, a).Some?
    ensures MarkedSince(before, Next(s, a).value)
  {
    hide Blocked;
  }

  lemma PauseStays(s: Sys, a: Action)
    requires Inv(s) && s.handler.Pausing? && Next(s, a).Some? && !a.CallTakes? && !a.CallGivesUp?
    ensures Next(s, a).value.handler == s.handler && Next(s, a).value.calls.abandoned == s.calls.abandoned
  {
    hide CallsOk, HubOk;
  }

  lemma {:induction false} MarkedRun(before: Sys, s: Sys, acts: seq<Action>)
    requires Inv(s) && MarkedSince(before, s) && Run(s, acts).Some?
    requires before.calls.caller.Waiting? && before.handler.Pausing?
    ensures MarkedSince(before, Run(s, acts).value)
    decreases acts
  {
    hide Inv, Next, MarkedSince;
    if acts != [] {
      MarkedStep(before, s, acts[0]);
      StepKeepsInv(s, acts[0]);
      MarkedRun(before, Next(s, acts[0]).value, acts[1..]);
    }
  }

  /** When an event comes before the reply to the handler's pause, in every run from there: the pause
      ends by being given up or not at all, and every Execute completed afterwards, by anyone, returns
      the reply to an earlier command. */
  lemma PauseCutOff(s: Sys, acts: seq<Action>)
    requires Reachable(s) && s.handler.Pausing? && Blocked(s) && Run(s, acts).Some?
    ensures var t := Run(s, acts).value;
      && (CallGivesUp !in acts ==> t.handler == s.handler && t.calls.caller == s.calls.caller)
      && |s.calls.done| <= |t.calls.done|
      && forall n :: |s.calls.done| <= n < |t.calls.done| ==> t.calls.done[n].reply < t.calls.done[n].command
  {
    ReachableOk(s);
    hide Next, Inv, MarkedSince, Reachable;
    PausingWaits(s);
    MarkedAtFirst(s);
    MarkedRun(s, s, acts);
    RunKeepsInv(s, acts);
    MarkedReads(s, Run(s, acts).value);
    if CallGivesUp !in acts {
      PauseWaits(s, acts);
    }
  }

  lemma MarkedAtFirst(s: Sys)
    requires Blocked(s)
    ensures MarkedSince(s, s)
  {
  }

  lemma MarkedReads(before: Sys, s: Sys)
    requires MarkedSince(before, s) && Inv(s)
    ensures |before.calls.done| <= |s.calls.done|
    ensures forall n :: |before.calls.done| <= n < |s.calls.done| ==>
              s.calls.done[n].reply < s.calls.done[n].command
  {
    hide Blocked, HubOk, HandlerOk;
    assert Paired(s.calls);
  }

  lemma PausingWaits(s: Sys)
    requires Inv(s) && s.handler.Pausing?
    ensures s.calls.caller.Waiting?
  {
    hide CallsOk, HubOk;
  }

  lemma {:induction false} PauseWaits(s: Sys, acts: seq<Action>)
    requires Inv(s) && s.handler.Pausing? && Blocked(s) && Run(s, acts).Some? && CallGivesUp !in acts
    ensures Run(s, acts).value.handler == s.handler && Run(s, acts).value.calls.caller == s.calls.caller
    decreases acts
  {
    hide Inv, Next, Blocked;
    if acts != [] {
      var a := acts[0];
      assert a in acts;
      PauseWaiting(s, a);
      StepKeepsInv(s, a);
      PauseWaits(Next(s, a).value, acts[1..]);
    }
  }

  lemma PauseWaiting(s: Sys, a: Action)
    requires Inv(s) && s.handler.Pausing? && Blocked(s) && Next(s, a).Some? && !a.CallGivesUp?
    ensures var t := Next(s, a).value;
      && t.handler == s.handler && t.calls.caller == s.calls.caller && Blocked(t)
      && t.calls.done == s.calls.done && t.calls.abandoned == s.calls.abandoned
  {
    PausingWaits(s);
    BlockedMeansUndeliverable(s);
    hide Inv, Next, Blocked, Deliverable;
    WaitingStays(s, a);
    WaitingTakesNothing(s, a);
    PauseStays(s, a);
  }

  lemma WaitingTakesNothing(s: Sys, a: Action)
    requires !Deliverable(s) && Next(s, a).Some?
    ensures !a.CallTakes?
  {
  }

  /** This happens whenever QEMU announces the stop before it replies to it. */
  lemma PauseIsCutOff()
    ensures exists s ::
      Reachable(s) && s.handler == Pausing(0) && Blocked(s) && s.wire == [Event("STOP"), Reply(0)]
  {
    var s4 := PauseStarts();
    hide Reachable, Run;
    ReachableThen(s4, QemuEmits("STOP"));
    var s5 := Next(s4, QemuEmits("STOP")).value;
    ReachableThen(s5, QemuReplies);
    var s6 := Next(s5, QemuReplies).value;
    assert s6.wire == [Event("STOP"), Reply(0)];
  }

  /** A panic has been seen and the handler has written its stop command. */
  lemma PauseStarts() returns (s: Sys)
    ensures Reachable(s) && s.handler == Pausing(0) && s.reader == Reading && s.wire == [] && !s.hungUp
    ensures s.calls == Begin(NO_CALLS, true) && s.pausesReturned == 0 && s.panicCloses == 0
  {
    var s2 := PanicIsSeen();
    hide Reachable, Run;
    ReachableThen(s2, HandlerUnsubscribes);
    var s3 := Next(s2, HandlerUnsubscribes).value;
    ReachableThen(s3, PauseBegins);
    s := Next(s3, PauseBegins).value;
  }

  lemma PanicIsSeen() returns (s: Sys)
    ensures Reachable(s) && s.handler == Seen(0) && s.reader == Reading && s.wire == [] && !s.hungUp
    ensures s.calls == NO_CALLS && s.pausesReturned == 0 && s.panicCloses == 0
  {
    InitReachable();
    hide Reachable, Run;
    ReachableThen(INIT, HandlerSubscribes);
    var s0 := Next(INIT, HandlerSubscribes).value;
    var s1 := EventDelivered(s0, "GUEST_PANICKED");
    ReachableThen(s1, HandlerReceives);
    s := Next(s1, HandlerReceives).value;
  }
}
