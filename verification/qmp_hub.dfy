/** The event side of a QMP machine: a table of listeners, each a channel with room for one
    event, filled by the reader goroutine and drained by subscribers (internal/qemu/machine.go).

    `Hub` is the value of the listener table and of every channel ever made. The functions below
    are the atomic steps the goroutines take on it; `Machine` is the same table as an object whose
    methods run the loops of the source. */
module QmpHub {

  /** One listener channel of capacity one. `slot`, `open` are its state. The rest is its history:
      `since` is the length of the dispatch log when it was made, `offered` are the events it was
      offered, `dropped` the positions among them that found the slot full, `got` the events its
      subscriber received, and `freed[k]` the number of events offered when its slot became empty for
      the k-th time. */
  datatype Channel = Channel(
    slot: seq<string>,
    open: bool,
    since: nat,
    offered: seq<string>,
    dropped: set<nat>,
    got: seq<string>,
    freed: seq<nat>)

  /** `fault` records a Go panic: a send on a closed channel or a second close. */
  datatype Hub = Hub(
    nextId: nat,
    listeners: set<nat>,
    chans: map<nat, Channel>,
    dispatched: seq<string>,
    fault: bool)

  const EMPTY_HUB := Hub(0, {}, map[], [], false)

  /** The log only grows, channels stay, and the subscription point of a channel never moves. */
  ghost predicate Grows(h: Hub, r: Hub) {
    && h.dispatched <= r.dispatched
    && h.nextId <= r.nextId
    && h.chans.Keys <= r.chans.Keys
    && forall id: nat | id in h.chans && id < h.nextId :: r.chans[id].since == h.chans[id].since
  }

  function NewChannel(since: nat): Channel {
    Channel([], true, since, [], {}, [], [0])
  }

  /** A send inside a select with a default branch: kept when the slot is empty, dropped otherwise. */
  function Offer(c: Channel, e: string): Channel {
    c.(slot := if c.slot == [] then [e] else c.slot,
       offered := c.offered + [e],
       dropped := if c.slot == [] then c.dropped else c.dropped + {|c.offered|})
  }

  function Subscribe(h: Hub): (r: Hub)
    ensures Grows(h, r)
  {
    h.(nextId := h.nextId + 1,
       listeners := h.listeners + {h.nextId},
       chans := h.chans[h.nextId := NewChannel(|h.dispatched|)])
  }

  /** close(ch) after delete(listeners, id); closing a closed channel is a fault. */
  function CloseOne(h: Hub, id: nat): (r: Hub)
    requires id in h.chans
    ensures Grows(h, r)
  {
    h.(listeners := h.listeners - {id},
       chans := h.chans[id := h.chans[id].(open := false)],
       fault := h.fault || !h.chans[id].open)
  }

  /** The closure returned by SubscribeEvents: nothing happens unless the id is still listed. */
  function Unsubscribe(h: Hub, id: nat): (r: Hub)
    ensures Grows(h, r)
  {
    if id in h.listeners && id in h.chans then CloseOne(h, id) else h
  }

  /** The reader offers the current event to one listener; sending on a closed channel is a fault. */
  function OfferTo(h: Hub, id: nat, e: string): (r: Hub)
    requires id in h.chans
    ensures Grows(h, r)
  {
    h.(chans := h.chans[id := Offer(h.chans[id], e)],
       fault := h.fault || !h.chans[id].open)
  }

  /** A subscriber takes the buffered event; this needs no lock and works on a closed channel. */
  function Receive(h: Hub, id: nat): (r: Hub)
    requires id in h.chans && h.chans[id].slot != []
    ensures Grows(h, r)
  {
    var c := h.chans[id];
    h.(chans := h.chans[id := c.(slot := [], got := c.got + [c.slot[0]], freed := c.freed + [|c.offered|])])
  }

  function Logged(h: Hub, e: string): (r: Hub)
    ensures Grows(h, r)
  {
    h.(dispatched := h.dispatched + [e])
  }

  // ---- What every interleaving keeps ----

  /** The slot holds exactly the first event offered since it was last empty, and is empty exactly
      when none was; the k-th event received is the first one offered after the k-th emptying; exactly the
      other events were dropped. */
  ghost predicate ChannelOk(c: Channel) {
    && |c.freed| == |c.got| + 1 && c.freed[0] == 0
    && (forall i, j :: 0 <= i < j < |c.freed| ==> c.freed[i] < c.freed[j])
    && c.freed[|c.got|] <= |c.offered|
    && (forall k :: 0 <= k < |c.got| ==> c.freed[k] < |c.offered| && c.got[k] == c.offered[c.freed[k]])
    && c.slot == (if c.freed[|c.got|] == |c.offered| then [] else [c.offered[c.freed[|c.got|]]])
    && (forall q | q in c.dropped :: q < |c.offered|)
    && (forall q :: 0 <= q < |c.offered| ==> (q in c.dropped <==> q !in c.freed))
  }

  /** The events a listener has been offered, plus the one the reader still owes it, are exactly
      those dispatched since it subscribed; a closed channel has a prefix of them. */
  ghost predicate LogOk(c: Channel, dispatched: seq<string>, owed: seq<string>) {
    && c.since <= |dispatched|
    && (if c.open then c.offered + owed == dispatched[c.since..] else c.offered <= dispatched[c.since..])
  }

  function Owed(id: nat, todo: set<nat>, e: string): seq<string> {
    if id in todo then [e] else []
  }

  ghost predicate HubOk(h: Hub, todo: set<nat>, e: string) {
    && !h.fault
    && (forall id: nat :: id in h.chans <==> id < h.nextId)
    && todo <= h.listeners
    && (forall id: nat :: id in h.listeners <==> id in h.chans && h.chans[id].open)
    && (forall id: nat | id in h.chans :: ChannelOk(h.chans[id]))
    && (forall id: nat | id in h.chans :: LogOk(h.chans[id], h.dispatched, Owed(id, todo, e)))
  }

  lemma OfferFits(c: Channel, dispatched: seq<string>, e: string)
    requires ChannelOk(c) && LogOk(c, dispatched, [e]) && c.open
    ensures ChannelOk(Offer(c, e)) && LogOk(Offer(c, e), dispatched, [])
  {
    var d := Offer(c, e);
    assert forall k :: 0 <= k < |c.offered| ==> d.offered[k] == c.offered[k];
    assert c.freed[|c.got|] in c.freed && forall k :: 0 <= k < |c.freed| ==> c.freed[k] <= c.freed[|c.got|];
    assert d.offered + [] == d.offered;
  }

  lemma CloseFits(c: Channel, dispatched: seq<string>)
    requires ChannelOk(c) && LogOk(c, dispatched, [])
    ensures ChannelOk(c.(open := false)) && LogOk(c.(open := false), dispatched, [])
  {
    assert c.offered + [] == c.offered;
  }

  lemma NewFits(dispatched: seq<string>)
    ensures ChannelOk(NewChannel(|dispatched|)) && LogOk(NewChannel(|dispatched|), dispatched, [])
  {
    assert dispatched[|dispatched|..] == [];
  }

  lemma ReceiveFits(h: Hub, id: nat, dispatched: seq<string>, owed: seq<string>)
    requires id in h.chans && h.chans[id].slot != []
    requires ChannelOk(h.chans[id]) && LogOk(h.chans[id], dispatched, owed)
    ensures ChannelOk(Receive(h, id).chans[id]) && LogOk(Receive(h, id).chans[id], dispatched, owed)
  {
    var c := h.chans[id];
    assert c.freed[|c.got|] < |c.offered|;
    assert c.slot[0] == c.offered[c.freed[|c.got|]];
  }

  lemma SubscribeKeeps(h: Hub, e: string)
    requires HubOk(h, {}, e)
    ensures HubOk(Subscribe(h), {}, e)
  {
    hide ChannelOk, LogOk;
    NewFits(h.dispatched);
  }

  lemma UnsubscribeKeeps(h: Hub, id: nat, e: string)
    requires HubOk(h, {}, e)
    ensures HubOk(Unsubscribe(h, id), {}, e)
  {
    if id in h.listeners && id in h.chans {
      CloseKeeps(h, id, e);
    }
  }

  lemma CloseKeeps(h: Hub, id: nat, e: string)
    requires HubOk(h, {}, e) && id in h.listeners
    ensures HubOk(CloseOne(h, id), {}, e)
  {
    hide ChannelOk, LogOk;
    CloseFits(h.chans[id], h.dispatched);
  }

  lemma ReceiveKeeps(h: Hub, id: nat, todo: set<nat>, e: string)
    requires HubOk(h, todo, e) && id in h.chans && h.chans[id].slot != []
    ensures HubOk(Receive(h, id), todo, e)
  {
    hide ChannelOk, LogOk;
    ReceiveFits(h, id, h.dispatched, Owed(id, todo, e));
  }

  lemma LoggedKeeps(h: Hub, e0: string, e: string)
    requires HubOk(h, {}, e0)
    ensures HubOk(Logged(h, e), h.listeners, e)
  {
    hide ChannelOk;
    forall id: nat | id in h.chans
      ensures LogOk(h.chans[id], Logged(h, e).dispatched, Owed(id, h.listeners, e))
    {
      var c := h.chans[id];
      assert LogOk(c, h.dispatched, Owed(id, {}, e0));
      assert (h.dispatched + [e])[c.since..] == h.dispatched[c.since..] + [e];
      assert c.offered + [] == c.offered;
    }
  }

  lemma OfferToKeeps(h: Hub, id: nat, todo: set<nat>, e: string)
    requires HubOk(h, todo, e) && id in todo
    ensures HubOk(OfferTo(h, id, e), todo - {id}, e)
  {
    hide ChannelOk, LogOk, Offer;
    OfferFits(h.chans[id], h.dispatched, e);
    OfferOpen(h.chans[id], e);
  }

  lemma OfferOpen(c: Channel, e: string)
    ensures Offer(c, e).open == c.open
  {
  }

  // ---- The whole loops, and the order in which Go walks the map ----

  /** The table after one whole dispatch. */
  function OfferAll(h: Hub, ids: set<nat>, e: string): Hub
    requires ids <= h.chans.Keys
  {
    h.(chans := map id | id in h.chans :: if id in ids then Offer(h.chans[id], e) else h.chans[id],
       fault := h.fault || exists id :: id in ids && !h.chans[id].open)
  }

  function CloseAll(h: Hub, ids: set<nat>): Hub
    requires ids <= h.chans.Keys
  {
    h.(listeners := h.listeners - ids,
       chans := map id | id in h.chans :: if id in ids then h.chans[id].(open := false) else h.chans[id],
       fault := h.fault || exists id :: id in ids && !h.chans[id].open)
  }

  /** Whichever listener is served first, the rest of the loop ends in the same table. */
  lemma OfferAllAnyOrder(h: Hub, ids: set<nat>, id: nat, e: string)
    requires ids <= h.chans.Keys && id in ids
    ensures ids - {id} <= OfferTo(h, id, e).chans.Keys
    ensures OfferAll(OfferTo(h, id, e), ids - {id}, e) == OfferAll(h, ids, e)
  {
    var d := OfferTo(h, id, e);
    assert d.chans.Keys == h.chans.Keys;
    assert OfferAll(d, ids - {id}, e).chans == OfferAll(h, ids, e).chans;
    assert forall k :: k in ids - {id} ==> d.chans[k] == h.chans[k];
    if OfferAll(h, ids, e).fault && !h.fault {
      var k :| k in ids && !h.chans[k].open;
      assert k == id || (k in ids - {id} && !d.chans[k].open);
    }
  }

  lemma CloseAllAnyOrder(h: Hub, ids: set<nat>, id: nat)
    requires ids <= h.chans.Keys && id in ids
    ensures ids - {id} <= CloseOne(h, id).chans.Keys
    ensures CloseAll(CloseOne(h, id), ids - {id}) == CloseAll(h, ids)
  {
    var d := CloseOne(h, id);
    assert d.chans.Keys == h.chans.Keys;
    assert CloseAll(d, ids - {id}).chans == CloseAll(h, ids).chans;
    assert CloseAll(d, ids - {id}).listeners == CloseAll(h, ids).listeners;
    assert forall k :: k in ids - {id} ==> d.chans[k] == h.chans[k];
    if CloseAll(h, ids).fault && !h.fault {
      var k :| k in ids && !h.chans[k].open;
      assert k == id || (k in ids - {id} && !d.chans[k].open);
    }
  }

  /** The listener table as the object the goroutines share. Each method is one critical section of
      `mu` in the source. */
  class Machine {
    var nextListenerID: nat
    var listeners: set<nat>
    var chans: map<nat, Channel>
    var dispatched: seq<string>
    var fault: bool

    ghost function View(): Hub
      reads this
    {
      Hub(nextListenerID, listeners, chans, dispatched, fault)
    }

    ghost predicate Valid()
      reads this
    {
      HubOk(View(), {}, "")
    }

    constructor ()
      ensures View() == EMPTY_HUB && Valid()
    {
      nextListenerID, listeners, chans, dispatched, fault := 0, {}, map[], [], false;
    }

    method SubscribeEvents() returns (id: nat)
      requires Valid()
      modifies this
      ensures Valid() && View() == Subscribe(old(View()))
      ensures id == old(nextListenerID) && id !in old(chans) && id in listeners
    {
      hide ChannelOk, LogOk;
      SubscribeKeeps(View(), "");
      id := nextListenerID;
      nextListenerID := nextListenerID + 1;
      chans := chans[id := NewChannel(|dispatched|)];
      listeners := listeners + {id};
    }

    method UnsubscribeEvents(id: nat)
      requires Valid()
      modifies this
      ensures Valid() && View() == Unsubscribe(old(View()), id)
      ensures id !in listeners
    {
      hide ChannelOk, LogOk;
      UnsubscribeKeeps(View(), id, "");
      if id in listeners {
        listeners := listeners - {id};
        chans := chans[id := chans[id].(open := false)];
      }
    }

    /** Offers one event to every listener, in whatever order the map is walked. */
    method DispatchEvent(e: string)
      requires Valid()
      modifies this
      ensures Valid() && View() == OfferAll(Logged(old(View()), e), old(listeners), e)
      ensures listeners == old(listeners)
    {
      hide ChannelOk, LogOk;
      LoggedKeeps(View(), "", e);
      dispatched := dispatched + [e];
      var todo := listeners;
      ghost var goal := OfferAll(View(), listeners, e);
      while todo != {}
        invariant HubOk(View(), todo, e)
        invariant OfferAll(View(), todo, e) == goal
        invariant listeners == old(listeners)
        decreases todo
      {
        var id :| id in todo;
        OfferToKeeps(View(), id, todo, e);
        OfferAllAnyOrder(View(), todo, id, e);
        fault := fault || !chans[id].open;
        chans := chans[id := Offer(chans[id], e)];
        todo := todo - {id};
      }
      assert View().chans == goal.chans;
      assert forall id: nat :: Owed(id, {}, e) == Owed(id, {}, "");
      assert HubOk(View(), {}, "");
    }

    /** The deferred closeListeners of the event loop. */
    method CloseListeners()
      requires Valid()
      modifies this
      ensures Valid() && View() == CloseAll(old(View()), old(listeners))
      ensures listeners == {}
    {
      hide ChannelOk, LogOk;
      var todo := listeners;
      ghost var goal := CloseAll(View(), listeners);
      while todo != {}
        invariant Valid() && todo == listeners
        invariant CloseAll(View(), todo) == goal
        decreases todo
      {
        var id :| id in todo;
        CloseKeeps(View(), id, "");
        CloseAllAnyOrder(View(), todo, id);
        fault := fault || !chans[id].open;
        chans := chans[id := chans[id].(open := false)];
        listeners := listeners - {id};
        todo := todo - {id};
      }
      assert View().chans == goal.chans;
    }
  }
}
