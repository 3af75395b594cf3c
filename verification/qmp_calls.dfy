/** The command side of a QMP machine: Execute writes a command while it holds `mu` and waits for
    one reply from a queue of 16 slots; a call given up on ctx or process exit leaves its reply
    behind (internal/qemu/machine.go).

    A reply is named by the number of the command it answers. QEMU answers in order. */
module QmpCalls {

  const RESPONSE_SLOTS := 16

  /** One line of the QMP stream, as the reader classifies it. */
  datatype Line = Noise | Event(name: string) | Reply(command: nat)

  datatype Caller = Idle | Waiting(command: nat, byHandler: bool)

  /** An Execute that returned a reply: its own command, the command the reply answers, and how
      many calls had been given up when it returned. */
  datatype Completed = Completed(command: nat, reply: nat, abandonedBefore: nat)

  datatype Calls = Calls(
    issued: nat,
    answered: nat,
    queue: seq<nat>,
    caller: Caller,
    done: seq<Completed>,
    abandoned: nat,
    dropped: nat)

  const NO_CALLS := Calls(0, 0, [], Idle, [], 0, 0)

  function Begin(c: Calls, byHandler: bool): Calls {
    c.(issued := c.issued + 1, caller := Waiting(c.issued, byHandler))
  }

  /** The select in the reader: queue the reply, or drop it when all slots are taken. */
  function Push(c: Calls, reply: nat): Calls {
    if |c.queue| < RESPONSE_SLOTS then c.(queue := c.queue + [reply]) else c.(dropped := c.dropped + 1)
  }

  function Take(c: Calls): Calls
    requires c.caller.Waiting? && c.queue != []
  {
    c.(queue := c.queue[1..], caller := Idle,
       done := c.done + [Completed(c.caller.command, c.queue[0], c.abandoned)])
  }

  function Abandon(c: Calls): Calls
    requires c.caller.Waiting?
  {
    c.(caller := Idle, abandoned := c.abandoned + 1)
  }

  // ---- Replies that have been neither consumed nor dropped ----

  function RepliesIn(wire: seq<Line>): seq<nat> {
    if wire == [] then [] else (if wire[0].Reply? then [wire[0].command] else []) + RepliesIn(wire[1..])
  }

  function Range(lo: nat, hi: nat): (r: seq<nat>)
    requires lo <= hi
    ensures |r| == hi - lo && forall k :: 0 <= k < |r| ==> r[k] == lo + k
  {
    seq(hi - lo, k requires 0 <= k => lo + k)
  }

  /** In queue order: queued, then on the wire, then still owed by QEMU. */
  function Outstanding(c: Calls, wire: seq<Line>): seq<nat>
    requires c.answered <= c.issued
  {
    c.queue + RepliesIn(wire) + Range(c.answered, c.issued)
  }

  ghost predicate Increasing(s: seq<nat>) {
    forall i, j :: 0 <= i < j < |s| ==> s[i] < s[j]
  }

  ghost predicate CallsOk(c: Calls, wire: seq<Line>) {
    c.answered <= c.issued && Fits(c, Outstanding(c, wire))
  }

  /** The bookkeeping between calls and the replies `o` still outstanding. */
  ghost predicate Fits(c: Calls, o: seq<nat>) {
    && CountsOk(c, o)
    && StaleOk(c, o)
    && InOrder(c, o)
    && Paired(c)
  }

  ghost predicate CountsOk(c: Calls, o: seq<nat>) {
    && |c.queue| <= RESPONSE_SLOTS
    && c.queue <= o
    && Increasing(o)
    && (forall k :: 0 <= k < |o| ==> o[k] < c.issued)
    && c.issued == |c.done| + c.dropped + |o|
    && c.issued == |c.done| + c.abandoned + (if c.caller.Waiting? then 1 else 0)
    && (c.caller.Waiting? ==> c.caller.command + 1 == c.issued)
  }

  /** As long as nothing was dropped, the n-th reply consumed answers the n-th command. */
  ghost predicate InOrder(c: Calls, o: seq<nat>) {
    c.dropped == 0 ==>
      && (forall n :: 0 <= n < |c.done| ==> c.done[n].reply == n)
      && forall k :: 0 <= k < |o| ==> o[k] == |c.done| + k
  }

  /** A call got its own reply exactly when no call had been given up before. */
  ghost predicate Paired(c: Calls) {
    forall n :: 0 <= n < |c.done| ==>
      && (c.done[n].reply == c.done[n].command <==> c.done[n].abandonedBefore == 0)
      && c.done[n].reply <= c.done[n].command
      && c.done[n].abandonedBefore <= c.abandoned
  }

  /** Once a call has been given up there is always an older reply ahead of the next call's own. */
  ghost predicate StaleOk(c: Calls, o: seq<nat>) {
    if c.abandoned == 0 then
      o == (if c.caller.Waiting? then [c.caller.command] else [])
    else if c.caller.Idle? then
      o != []
    else
      && o != [] && o[0] < c.caller.command
      && (c.caller.command in o || |c.queue| == RESPONSE_SLOTS)
  }

  lemma BeginKeeps(c: Calls, wire: seq<Line>, byHandler: bool)
    requires CallsOk(c, wire) && c.caller.Idle?
    ensures CallsOk(Begin(c, byHandler), wire)
  {
    hide Fits;
    var o := Outstanding(c, wire);
    assert Range(c.answered, c.issued + 1) == Range(c.answered, c.issued) + [c.issued];
    assert Outstanding(Begin(c, byHandler), wire) == o + [c.issued];
    BeginFits(c, o, byHandler);
  }

  lemma BeginFits(c: Calls, o: seq<nat>, byHandler: bool)
    requires Fits(c, o) && c.caller.Idle?
    ensures Fits(Begin(c, byHandler), o + [c.issued])
  {
    assert (o + [c.issued])[|o|] == c.issued;
  }

  lemma TakeKeeps(c: Calls, wire: seq<Line>)
    requires CallsOk(c, wire) && c.caller.Waiting? && c.queue != []
    ensures CallsOk(Take(c), wire)
  {
    hide Fits;
    var o := Outstanding(c, wire);
    assert Outstanding(Take(c), wire) == o[1..];
    TakeFits(c, o);
  }

  lemma TakeFits(c: Calls, o: seq<nat>)
    requires Fits(c, o) && c.caller.Waiting? && c.queue != []
    ensures Fits(Take(c), o[1..])
  {
    assert o[0] == c.queue[0];
    if c.abandoned > 0 && c.caller.command in o {
      var k :| 0 <= k < |o| && o[k] == c.caller.command;
      assert k > 0;
    }
  }

  lemma AbandonKeeps(c: Calls, wire: seq<Line>)
    requires CallsOk(c, wire) && c.caller.Waiting?
    ensures CallsOk(Abandon(c), wire)
  {
    assert Outstanding(Abandon(c), wire) == Outstanding(c, wire);
  }

  lemma RepliesAppend(wire: seq<Line>, m: Line)
    ensures RepliesIn(wire + [m]) == RepliesIn(wire) + (if m.Reply? then [m.command] else [])
  {
    if wire == [] {
      assert wire + [m] == [m];
      assert [m][1..] == [];
      assert RepliesIn([]) == [];
    } else {
      RepliesAppend(wire[1..], m);
      assert (wire + [m])[1..] == wire[1..] + [m];
      assert (wire + [m])[0] == wire[0];
    }
  }

  /** QEMU answers its oldest unanswered command. */
  lemma AnswerKeeps(c: Calls, wire: seq<Line>)
    requires CallsOk(c, wire) && c.answered < c.issued
    ensures CallsOk(c.(answered := c.answered + 1), wire + [Reply(c.answered)])
  {
    RepliesAppend(wire, Reply(c.answered));
    assert Range(c.answered, c.issued) == [c.answered] + Range(c.answered + 1, c.issued);
    assert Outstanding(c.(answered := c.answered + 1), wire + [Reply(c.answered)]) == Outstanding(c, wire);
  }

  /** Anything else QEMU sends. */
  lemma OtherLineKeeps(c: Calls, wire: seq<Line>, m: Line)
    requires CallsOk(c, wire) && !m.Reply?
    ensures CallsOk(c, wire + [m])
  {
    hide Fits;
    RepliesAppend(wire, m);
    assert Outstanding(c, wire + [m]) == Outstanding(c, wire);
  }

  lemma SkipLineKeeps(c: Calls, wire: seq<Line>)
    requires CallsOk(c, wire) && wire != [] && !wire[0].Reply?
    ensures CallsOk(c, wire[1..])
  {
    hide Fits;
    assert Outstanding(c, wire[1..]) == Outstanding(c, wire);
  }

  /** The reader moves one reply to the queue, or drops it. */
  lemma PushKeeps(c: Calls, wire: seq<Line>)
    requires CallsOk(c, wire) && wire != [] && wire[0].Reply?
    ensures CallsOk(Push(c, wire[0].command), wire[1..])
  {
    hide Fits;
    var reply, rest := wire[0].command, RepliesIn(wire[1..]) + Range(c.answered, c.issued);
    SplitAtHead(c, wire);
    PushFits(c, reply, rest);
  }

  /** The outstanding replies before and after the reader takes one line off the wire. */
  lemma SplitAtHead(c: Calls, wire: seq<Line>)
    requires c.answered <= c.issued && wire != [] && wire[0].Reply?
    ensures var reply, rest := wire[0].command, RepliesIn(wire[1..]) + Range(c.answered, c.issued);
      && Outstanding(c, wire) == c.queue + [reply] + rest
      && Outstanding(Push(c, reply), wire[1..])
           == (if |c.queue| < RESPONSE_SLOTS then c.queue + [reply] + rest else c.queue + rest)
  {
    assert RepliesIn(wire) == [wire[0].command] + RepliesIn(wire[1..]);
  }

  /** A reply can only be dropped when at least 16 calls have been given up. */
  lemma PushFits(c: Calls, reply: nat, rest: seq<nat>)
    requires Fits(c, c.queue + [reply] + rest)
    ensures |c.queue| < RESPONSE_SLOTS ==> Fits(Push(c, reply), c.queue + [reply] + rest)
    ensures |c.queue| >= RESPONSE_SLOTS ==> c.abandoned >= RESPONSE_SLOTS && Fits(Push(c, reply), c.queue + rest)
  {
    var o, p := c.queue + [reply] + rest, c.queue + rest;
    if |c.queue| == RESPONSE_SLOTS {
      assert forall k :: 0 <= k < |p| ==> p[k] == o[if k < RESPONSE_SLOTS then k else k + 1];
      assert o[0] < o[1] < c.issued;
    }
  }
}
