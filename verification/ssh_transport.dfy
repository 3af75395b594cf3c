/** The connection life cycle of the SSH transport (internal/guest/windows/transport/ssh.go) as a
    transition system: the calls, which hold the mutex from start to end, the contexts their callers
    cancel, and one goroutine for each handshake that watches the context of the dialing call. */
module SshTransport {
  import opened Wrappers

  /** The fields of the transport, and the world. Connections and SFTP clients are numbered as they
      are made; `sftpOn[i]` is the connection SFTP client i was made on. `handshaking` is the connection
      of the call that is inside ssh.NewClientConn, which holds the mutex. */
  datatype Books = Books(
    client: Option<nat>,
    sftp: Option<nat>,
    handshaking: Option<nat>,
    dialed: nat,
    closed: set<nat>,
    sftpOn: seq<nat>,
    sftpClosed: set<nat>,
    ctxDone: set<nat>,
    watchers: set<nat>)

  const NO_BOOKS := Books(None, None, None, 0, {}, [], {}, {}, {})

  /** A call that finds a client, or whose dial fails, changes nothing and is not an action. CtxDone(c)
      means that the context of the call that dialed connection c is done. */
  datatype Action =
    // calls and their contexts
    | Dials
    | HandshakeSucceeds
    | HandshakeFails
    | OpensSftp
    | Closes
    | CtxDone(conn: nat)
    // the goroutine that watches a handshake
    | WatcherCloses(conn: nat)
    | WatcherLeaves(conn: nat)

  predicate ByWatcher(a: Action) {
    a.WatcherCloses? || a.WatcherLeaves?
  }

  /** The state after an action, or None when it is not enabled. The watcher waits for its context or
      the end of the handshake; with both at hand it may pick either. NewClientConn may succeed although
      the connection has just been closed under it. */
  function Next(b: Books, a: Action): Option<Books> {
    match a
    case Dials =>
      if b.handshaking.None? && b.client.None? then
        Some(b.(handshaking := Some(b.dialed), dialed := b.dialed + 1, watchers := b.watchers + {b.dialed}))
      else None
    case HandshakeSucceeds =>
      if b.handshaking.Some? then Some(b.(client := b.handshaking, handshaking := None)) else None
    case HandshakeFails =>
      if b.handshaking.Some? then
        Some(b.(closed := b.closed + {b.handshaking.value}, handshaking := None))
      else None
    case OpensSftp =>
      if b.handshaking.None? && b.client.Some? && b.sftp.None? then
        Some(b.(sftp := Some(|b.sftpOn|), sftpOn := b.sftpOn + [b.client.value]))
      else None
    case Closes =>
      if b.handshaking.None? then
        Some(b.(client := None, closed := b.closed + Held(b.client),
                sftp := None, sftpClosed := b.sftpClosed + Held(b.sftp)))
      else None
    case CtxDone(c) => if c < b.dialed then Some(b.(ctxDone := b.ctxDone + {c})) else None
    case WatcherCloses(c) =>
      if c in b.watchers && c in b.ctxDone then
        Some(b.(closed := b.closed + {c}, watchers := b.watchers - {c}))
      else None
    case WatcherLeaves(c) =>
      if c in b.watchers && b.handshaking != Some(c) then Some(b.(watchers := b.watchers - {c})) else None
  }

  function Held(o: Option<nat>): set<nat> {
    if o.Some? then {o.value} else {}
  }

  function Run(b: Books, acts: seq<Action>): Option<Books>
    decreases |acts|
  {
    if acts == [] then Some(b)
    else
      var d := Run(b, acts[..|acts| - 1]);
      if d.None? then None else Next(d.value, acts[|acts| - 1])
  }

  // ---- What every interleaving keeps ----

  /** Nothing leaks: every connection and every SFTP client ever made is the current one or has been
      closed, but for the connection of a handshake under way; and the SFTP client in the field was made
      on the connection in the field. */
  ghost predicate BooksOk(b: Books) {
    && (forall c: nat :: c < b.dialed ==> c in b.closed || b.client == Some(c) || b.handshaking == Some(c))
    && (b.client.Some? ==> b.client.value < b.dialed && b.handshaking.None?)
    && (b.handshaking.Some? ==> b.handshaking.value < b.dialed)
    && (forall i: nat :: i < |b.sftpOn| ==> i in b.sftpClosed || b.sftp == Some(i))
    && (b.sftp.Some? ==> b.sftp.value < |b.sftpOn| && b.client == Some(b.sftpOn[b.sftp.value]))
    && (forall c | c in b.closed :: c < b.dialed)
    && (forall c | c in b.watchers :: c < b.dialed)
  }

  lemma CallKeeps(b: Books, a: Action)
    requires BooksOk(b) && Next(b, a).Some?
    ensures BooksOk(Next(b, a).value)
  {
    assert a.OpensSftp? ==> Next(b, a).value.sftpOn[|b.sftpOn|] == b.client.value;
  }

  lemma {:induction false} RunKeeps(b: Books, acts: seq<Action>)
    requires BooksOk(b) && Run(b, acts).Some?
    ensures BooksOk(Run(b, acts).value)
    decreases |acts|
  {
    hide BooksOk, Next;
    if acts != [] {
      var init := acts[..|acts| - 1];
      RunKeeps(b, init);
      CallKeeps(Run(b, init).value, acts[|acts| - 1]);
    }
  }

  lemma RunsAreOk(acts: seq<Action>)
    requires Run(NO_BOOKS, acts).Some?
    ensures BooksOk(Run(NO_BOOKS, acts).value)
  {
    RunKeeps(NO_BOOKS, acts);
  }

  /** In every run: once no call holds the mutex, every connection dialed is current or closed, at most
      one is open, and the SFTP client belongs to the current connection. After a Close all of them are
      closed, and every SFTP client is. */
  lemma NothingLeaks(acts: seq<Action>, c: nat, d: nat)
    requires Run(NO_BOOKS, acts).Some? && Run(NO_BOOKS, acts).value.handshaking.None?
    ensures var b := Run(NO_BOOKS, acts).value;
      && (c < b.dialed ==> c in b.closed || b.client == Some(c))
      && (c < b.dialed && d < b.dialed && c !in b.closed && d !in b.closed ==> c == d)
      && (b.sftp.Some? ==> b.sftp.value < |b.sftpOn| && b.client == Some(b.sftpOn[b.sftp.value]))
      && (acts != [] && acts[|acts| - 1] == Closes ==>
            && (c < b.dialed ==> c in b.closed)
            && (d < |b.sftpOn| ==> d in b.sftpClosed))
  {
    RunsAreOk(acts);
    if acts != [] && acts[|acts| - 1] == Closes {
      RunsAreOk(acts[..|acts| - 1]);
    }
  }

  // ---- Whether the client handed out is open ----

  /** What callers do and see, without the steps of the watchers. */
  function Script(acts: seq<Action>): seq<Action>
    decreases |acts|
  {
    if acts == [] then []
    else
      var init, last := acts[..|acts| - 1], acts[|acts| - 1];
      Script(init) + (if ByWatcher(last) then [] else [last])
  }

  /** No step of a caller depends on what the watchers did. */
  ghost predicate SameForCallers(b: Books, d: Books) {
    && b.(closed := {}, watchers := {}) == d.(closed := {}, watchers := {})
    && b.watchers <= d.watchers
  }

  lemma SameAfterStep(b: Books, d: Books, a: Action)
    requires SameForCallers(b, d) && Next(b, a).Some?
    ensures ByWatcher(a) ==> SameForCallers(Next(b, a).value, d)
    ensures !ByWatcher(a) ==> Next(d, a).Some? && SameForCallers(Next(b, a).value, Next(d, a).value)
  {
  }

  /** The schedule in which the watchers never come to run. */
  lemma {:induction false} WithoutWatchers(acts: seq<Action>)
    requires Run(NO_BOOKS, acts).Some?
    ensures Run(NO_BOOKS, Script(acts)).Some?
    ensures SameForCallers(Run(NO_BOOKS, acts).value, Run(NO_BOOKS, Script(acts)).value)
    decreases |acts|
  {
    hide Next, SameForCallers;
    if acts == [] {
      assert SameForCallers(NO_BOOKS, NO_BOOKS) by { SameAsItself(NO_BOOKS); }
    } else {
      var init, last := acts[..|acts| - 1], acts[|acts| - 1];
      WithoutWatchers(init);
      SameAfterStep(Run(NO_BOOKS, init).value, Run(NO_BOOKS, Script(init)).value, last);
      if ByWatcher(last) {
        assert Script(acts) == Script(init);
      } else {
        assert Script(acts)[..|Script(acts)| - 1] == Script(init);
      }
    }
  }

  lemma SameAsItself(b: Books)
    ensures SameForCallers(b, b)
  {
  }

  /** Connection c is the one a call holds or may be handed, nobody has given it up. */
  predicate InUse(b: Books, c: nat) {
    b.client == Some(c) || b.handshaking == Some(c)
  }

  /** While a connection is in use only its watcher can have closed it, and only after its context. */
  ghost predicate ClosedByWatcher(b: Books, c: nat) {
    && (c in b.ctxDone || c in b.closed || c in b.watchers ==> c < b.dialed)
    && (InUse(b, c) && c in b.closed ==> c in b.ctxDone && c !in b.watchers)
  }

  lemma WatcherStep(b: Books, a: Action, c: nat)
    requires BooksOk(b) && ClosedByWatcher(b, c) && Next(b, a).Some?
    ensures ClosedByWatcher(Next(b, a).value, c)
  {
  }

  lemma {:induction false} OnlyTheWatcherCloses(acts: seq<Action>, c: nat)
    requires Run(NO_BOOKS, acts).Some?
    ensures ClosedByWatcher(Run(NO_BOOKS, acts).value, c)
    ensures c in Run(NO_BOOKS, acts).value.ctxDone <==> CtxDone(c) in acts
    decreases |acts|
  {
    hide BooksOk;
    if acts == [] {
    } else {
      var init, last := acts[..|acts| - 1], acts[|acts| - 1];
      OnlyTheWatcherCloses(init, c);
      RunsAreOk(init);
      WatcherStep(Run(NO_BOOKS, init).value, last, c);
      assert acts == init + [last];
    }
  }

  lemma {:induction false} ScriptKeepsCtx(acts: seq<Action>, c: nat)
    ensures CtxDone(c) in Script(acts) <==> CtxDone(c) in acts
    decreases |acts|
  {
    if acts != [] {
      var init, last := acts[..|acts| - 1], acts[|acts| - 1];
      ScriptKeepsCtx(init, c);
      assert acts == init + [last];
    }
  }

  lemma {:induction false} ScriptOfScript(script: seq<Action>)
    requires forall a | a in script :: !ByWatcher(a)
    ensures Script(script) == script
    decreases |script|
  {
    hide ByWatcher;
    if script != [] {
      var init, last := script[..|script| - 1], script[|script| - 1];
      assert script == init + [last];
      ScriptOfScript(init);
    }
  }

  /** Without watcher steps nothing in use is closed, and every watcher is still there. */
  ghost predicate Undisturbed(b: Books) {
    && (forall c: nat :: c < b.dialed ==> c in b.watchers)
    && (forall c: nat :: c in b.closed <==> c < b.dialed && !InUse(b, c))
  }

  lemma UndisturbedStep(b: Books, a: Action)
    requires BooksOk(b) && Undisturbed(b) && !ByWatcher(a) && Next(b, a).Some?
    ensures Undisturbed(Next(b, a).value)
  {
  }

  lemma {:induction false} UndisturbedRun(script: seq<Action>)
    requires (forall a | a in script :: !ByWatcher(a)) && Run(NO_BOOKS, script).Some?
    ensures Undisturbed(Run(NO_BOOKS, script).value)
    decreases |script|
  {
    hide BooksOk, Next;
    if script == [] {
    } else {
      hide Undisturbed, ByWatcher;
      var init := script[..|script| - 1];
      UndisturbedRun(init);
      RunsAreOk(init);
      UndisturbedStep(Run(NO_BOOKS, init).value, script[|script| - 1]);
    }
  }

  /** Connection c is open in whatever way the watchers are scheduled among these steps of the callers. */
  ghost predicate OpenUnderEverySchedule(script: seq<Action>, c: nat) {
    forall acts | Script(acts) == script && Run(NO_BOOKS, acts).Some? :: c !in Run(NO_BOOKS, acts).value.closed
  }

  /** Whatever the callers do: a connection they dialed is open under every schedule of the watchers if
      and only if it is still in use, which means that its handshake has not failed and it has not been
      closed since, and the context of the call that dialed it is not done. */
  lemma OpenIffCtxOpen(script: seq<Action>, c: nat)
    requires (forall a | a in script :: !ByWatcher(a)) && Run(NO_BOOKS, script).Some?
    requires c < Run(NO_BOOKS, script).value.dialed
    ensures OpenUnderEverySchedule(script, c)
            <==> InUse(Run(NO_BOOKS, script).value, c) && CtxDone(c) !in script
  {
    var b := Run(NO_BOOKS, script).value;
    ScriptOfScript(script);
    UndisturbedRun(script);
    if !InUse(b, c) {
      assert c in b.closed;
    } else if CtxDone(c) in script {
      var late := script + [WatcherCloses(c)];
      OnlyTheWatcherCloses(script, c);
      assert late[..|late| - 1] == script;
      assert Script(late) == script;
      assert Run(NO_BOOKS, late) == Next(b, WatcherCloses(c));
    } else {
      forall acts | Script(acts) == script && Run(NO_BOOKS, acts).Some?
        ensures c !in Run(NO_BOOKS, acts).value.closed
      {
        WithoutWatchers(acts);
        OnlyTheWatcherCloses(acts, c);
        ScriptKeepsCtx(acts, c);
      }
    }
  }

  /** c stays the current connection, and open, whatever happens short of a Close. */
  ghost predicate StaysOpen(b: Books, c: nat) {
    forall acts | Run(b, acts).Some? && Closes !in acts :: c !in Run(b, acts).value.closed
  }

  lemma {:induction false} CurrentStays(b: Books, acts: seq<Action>, c: nat)
    requires BooksOk(b) && Run(b, acts).Some? && Closes !in acts && b.client == Some(c)
    ensures Run(b, acts).value.client == Some(c)
    ensures c !in b.closed && c !in b.watchers ==>
              c !in Run(b, acts).value.closed && c !in Run(b, acts).value.watchers
    decreases |acts|
  {
    hide BooksOk;
    if acts != [] {
      var init, last := acts[..|acts| - 1], acts[|acts| - 1];
      assert acts == init + [last];
      assert last in acts && forall a | a in init :: a in acts;
      CurrentStays(b, init, c);
      RunKeeps(b, init);
      CurrentStep(Run(b, init).value, last, c);
    }
  }

  lemma CurrentStep(b: Books, a: Action, c: nat)
    requires BooksOk(b) && Next(b, a).Some? && a != Closes && b.client == Some(c)
    ensures Next(b, a).value.client == Some(c)
    ensures c !in b.closed && c !in b.watchers ==>
              c !in Next(b, a).value.closed && c !in Next(b, a).value.watchers
  {
  }

  /** The connection in use stays open short of a Close, whatever becomes of the context of the call
      that dialed it, if and only if it is open now and its handshake watcher has ended. */
  lemma CurrentStaysOpen(b: Books, c: nat)
    requires BooksOk(b) && b.client == Some(c)
    ensures StaysOpen(b, c) <==> c !in b.closed && c !in b.watchers
  {
    assert Run(b, []) == Some(b);
    if c !in b.closed && c !in b.watchers {
      forall acts | Run(b, acts).Some? && Closes !in acts
        ensures c !in Run(b, acts).value.closed
      {
        CurrentStays(b, acts, c);
      }
    } else if c !in b.closed {
      var one, two := [CtxDone(c)], [CtxDone(c), WatcherCloses(c)];
      assert one[..0] == [] && two[..1] == one;
      assert Run(b, one) == Next(b, CtxDone(c));
      assert Run(b, two) == Next(Next(b, CtxDone(c)).value, WatcherCloses(c));
    }
  }

  /** That is where a good handshake ends up as soon as its watcher notices the end of it. */
  lemma SafeOnceWatcherLeft(b: Books, c: nat)
    requires BooksOk(b) && b.client == Some(c) && c !in b.closed && c in b.watchers
    ensures Next(b, WatcherLeaves(c)).Some?
    ensures var d := Next(b, WatcherLeaves(c)).value; d.client == b.client && BooksOk(d) && StaysOpen(d, c)
  {
    CallKeeps(b, WatcherLeaves(c));
    CurrentStaysOpen(Next(b, WatcherLeaves(c)).value, c);
  }

  /** c stays open whatever happens short of a Close and of its context being done from now on. */
  ghost predicate StaysOpenFromNow(b: Books, c: nat) {
    forall acts | Run(b, acts).Some? && Closes !in acts && CtxDone(c) !in acts :: c !in Run(b, acts).value.closed
  }

  lemma {:induction false} SparedStays(b: Books, acts: seq<Action>, c: nat)
    requires Run(b, acts).Some? && Closes !in acts && CtxDone(c) !in acts
    requires b.client == Some(c) && b.handshaking.None? && c !in b.closed && !(c in b.watchers && c in b.ctxDone)
    requires c < b.dialed
    ensures var d := Run(b, acts).value;
      && d.client == Some(c) && d.handshaking.None? && c !in d.closed && !(c in d.watchers && c in d.ctxDone)
      && c < d.dialed
    decreases |acts|
  {
    if acts != [] {
      var init, last := acts[..|acts| - 1], acts[|acts| - 1];
      assert acts == init + [last];
      assert last in acts && forall a | a in init :: a in acts;
      SparedStays(b, init, c);
    }
  }

  /** It does if and only if it is open and its context was not done before its watcher ended. */
  lemma OpenIffCtxOutlivesWatcher(b: Books, c: nat)
    requires BooksOk(b) && b.client == Some(c)
    ensures StaysOpenFromNow(b, c) <==> c !in b.closed && !(c in b.watchers && c in b.ctxDone)
  {
    assert Run(b, []) == Some(b);
    if c !in b.closed {
      if c in b.watchers && c in b.ctxDone {
        OneStep(b, WatcherCloses(c));
      } else {
        forall acts | Run(b, acts).Some? && Closes !in acts && CtxDone(c) !in acts
          ensures c !in Run(b, acts).value.closed
        {
          SparedStays(b, acts, c);
        }
      }
    }
  }

  /** Both ways to fail happen. A watcher that is scheduled after a good handshake closes the connection
      in use, and later calls still hand it out. */
  lemma CurrentCanBeClosed()
    ensures var acts := [Dials, HandshakeSucceeds, CtxDone(0), WatcherCloses(0)];
      && Run(NO_BOOKS, acts).Some?
      && Run(NO_BOOKS, acts).value.client == Some(0) && 0 in Run(NO_BOOKS, acts).value.closed
  {
    FourSteps([Dials, HandshakeSucceeds, CtxDone(0), WatcherCloses(0)]);
  }

  /** And a context that is done at the very end of the handshake lets a call hand out a connection that
      is closed already. */
  lemma HandedOutClosed()
    ensures var acts := [Dials, CtxDone(0), WatcherCloses(0), HandshakeSucceeds];
      && Run(NO_BOOKS, acts).Some?
      && Run(NO_BOOKS, acts).value.client == Some(0) && 0 in Run(NO_BOOKS, acts).value.closed
  {
    FourSteps([Dials, CtxDone(0), WatcherCloses(0), HandshakeSucceeds]);
  }

  function Then(b: Option<Books>, a: Action): Option<Books> {
    if b.None? then None else Next(b.value, a)
  }

  lemma FourSteps(acts: seq<Action>)
    requires |acts| == 4
    ensures Run(NO_BOOKS, acts) == Then(Then(Then(Next(NO_BOOKS, acts[0]), acts[1]), acts[2]), acts[3])
  {
    hide Next;
    var three, two, one := acts[..3], acts[..2], acts[..1];
    assert three[..2] == two && two[..1] == one && one[..0] == [];
    assert Run(NO_BOOKS, one) == Next(NO_BOOKS, acts[0]);
    assert Run(NO_BOOKS, two) == Then(Run(NO_BOOKS, one), acts[1]);
    assert Run(NO_BOOKS, three) == Then(Run(NO_BOOKS, two), acts[2]);
  }

  // ---- The object ----

  /** What the network and ctx do to one attempt to connect: whether ctx is done before the handshake
      ends, whether the watcher closes the connection because of it, and how the handshake ends. */
  datatype Attempt = DialFails | Dialed(ctxDone: bool, watcherCloses: bool, handshakeOk: bool)

  predicate AttemptOk(attempt: Attempt) {
    attempt.Dialed? && attempt.watcherCloses ==> attempt.ctxDone
  }

  predicate CtxEnds(attempt: Attempt) {
    attempt.Dialed? && attempt.ctxDone
  }

  datatype SSHError = ConnectFailed | SFTPFailed

  class SSHTransport {
    var client: Option<nat>
    var sftp: Option<nat>
    var dialed: nat
    var closed: set<nat>
    var sftpOn: seq<nat>
    var sftpClosed: set<nat>
    var ctxDone: set<nat>
    var watchers: set<nat>

    ghost function View(): Books
      reads this
    {
      Books(client, sftp, None, dialed, closed, sftpOn, sftpClosed, ctxDone, watchers)
    }

    ghost predicate Valid()
      reads this
    {
      BooksOk(View())
    }

    constructor ()
      ensures View() == NO_BOOKS && Valid()
    {
      client, sftp, dialed, closed := None, None, 0, {};
      sftpOn, sftpClosed, ctxDone, watchers := [], {}, {}, {};
    }

    /** No-op when a client exists. Otherwise at most one connection is dialed; it becomes the client or
        has been closed, and without a cancelled ctx the client is open. */
    method ConnectLocked(attempt: Attempt) returns (ok: bool, ghost acts: seq<Action>)
      requires Valid() && AttemptOk(attempt)
      modifies this
      ensures Valid() && Run(old(View()), acts) == Some(View())
      ensures ok <==> client.Some?
      ensures ok <==> old(client).Some? || (attempt.Dialed? && attempt.handshakeOk)
      ensures old(client).Some? ==> View() == old(View())
      ensures old(client).None? && ok ==> client == Some(old(dialed)) && dialed == old(dialed) + 1
      ensures old(client).None? && ok && !CtxEnds(attempt) ==> client.value !in closed
      ensures !ok ==> forall c: nat :: c < dialed ==> c in closed
      ensures closed - {old(dialed)} == old(closed) && sftp == old(sftp) && sftpOn == old(sftpOn)
    {
      hide Run, BooksOk;
      acts := [];
      NoSteps(View());
      AllClosed(View());
      if client.Some? { return true, acts; }
      if attempt.DialFails? { return false, acts; }
      acts := AttemptRuns(View(), attempt);
      RunKeeps(View(), acts);
      AllClosed(Dialled(View(), attempt));
      var conn := dialed;
      dialed := dialed + 1;
      if attempt.ctxDone {
        ctxDone := ctxDone + {conn};
      }
      if attempt.watcherCloses {
        closed := closed + {conn};
      } else {
        watchers := watchers + {conn};
      }
      if !attempt.handshakeOk {
        closed := closed + {conn};
        return false, acts;
      }
      client := Some(conn);
      ok := true;
    }

    /** Every caller gets the client in the field, the one that was there if there was one; a failure
        leaves no connection open. */
    method AcquireClient(attempt: Attempt) returns (r: Result<nat, SSHError>, ghost acts: seq<Action>)
      requires Valid() && AttemptOk(attempt)
      modifies this
      ensures Valid() && Run(old(View()), acts) == Some(View())
      ensures old(client).Some? ==> r == Ok(old(client).value) && View() == old(View())
      ensures r.Ok? <==> old(client).Some? || (attempt.Dialed? && attempt.handshakeOk)
      ensures r.Ok? ==> client == Some(r.value)
      ensures r.Ok? && old(client).None? ==> r.value == old(dialed) && (!CtxEnds(attempt) ==> r.value !in closed)
      ensures r.Err? ==> client.None? && forall c: nat :: c < dialed ==> c in closed
    {
      var ok;
      ok, acts := ConnectLocked(attempt);
      if !ok { return Err(ConnectFailed), acts; }
      r := Ok(client.value);
    }

    /** The SFTP client handed out was made on the client now in the field; it is made once and then
        shared. */
    method AcquireSFTP(attempt: Attempt, subsystemOk: bool)
      returns (r: Result<nat, SSHError>, ghost acts: seq<Action>)
      requires Valid() && AttemptOk(attempt)
      modifies this
      ensures Valid() && Run(old(View()), acts) == Some(View())
      ensures r.Ok? ==> sftp == Some(r.value) && r.value < |sftpOn| && client == Some(sftpOn[r.value])
      ensures old(sftp).Some? ==> r == Ok(old(sftp).value) && View() == old(View())
      ensures r.Ok? <==> old(sftp).Some?
                         || ((old(client).Some? || (attempt.Dialed? && attempt.handshakeOk)) && subsystemOk)
      ensures old(sftp).None? && r.Ok? ==> r.value == |old(sftpOn)| && |sftpOn| == |old(sftpOn)| + 1
      ensures r == Err(ConnectFailed) <==> client.None?
      ensures r.Err? ==> sftp.None? && sftpOn == old(sftpOn)
      ensures old(client).Some? ==> client == old(client) && dialed == old(dialed) && closed == old(closed)
    {
      hide Run, BooksOk;
      ghost var start := View();
      SftpHasClient(start);
      var ok;
      ok, acts := ConnectLocked(attempt);
      SftpHasClient(View());
      if !ok { return Err(ConnectFailed), acts; }
      if sftp.None? && subsystemOk {
        RunThen(start, acts, OpensSftp);
        acts := acts + [OpensSftp];
      }
      ok := EnsureSFTPLocked(subsystemOk);
      SftpHasClient(View());
      if !ok { return Err(SFTPFailed), acts; }
      r := Ok(sftp.value);
    }

    method EnsureSFTPLocked(subsystemOk: bool) returns (ok: bool)
      requires Valid()
      modifies this`sftp, this`sftpOn
      ensures Valid() && (ok <==> sftp.Some?)
      ensures ok <==> old(sftp).Some? || (client.Some? && subsystemOk)
      ensures ok && old(sftp).None? ==> sftp == Some(|old(sftpOn)|) && sftpOn == old(sftpOn) + [client.value]
      ensures !ok || old(sftp).Some? ==> View() == old(View())
    {
      if sftp.Some? { return true; }
      if client.None? || !subsystemOk { return false; }
      CallKeeps(View(), OpensSftp);
      sftp := Some(|sftpOn|);
      sftpOn := sftpOn + [client.value];
      ok := true;
    }

    /** After Close the transport holds nothing: every connection and every SFTP client ever made has been
        closed, and nothing else has changed. */
    method Close()
      requires Valid()
      modifies this`client, this`sftp, this`closed, this`sftpClosed
      ensures Valid() && Run(old(View()), [Closes]) == Some(View())
      ensures client.None? && sftp.None?
      ensures forall c: nat :: c in closed <==> c < dialed
      ensures forall i: nat :: i < |sftpOn| ==> i in sftpClosed
    {
      OneStep(View(), Closes);
      CallKeeps(View(), Closes);
      assert closed + {} == closed && sftpClosed + {} == sftpClosed;
      if sftp.Some? {
        sftpClosed := sftpClosed + {sftp.value};
        sftp := None;
      }
      if client.Some? {
        closed := closed + {client.value};
        client := None;
      }
    }
  }

  /** The world after one attempt that got as far as the handshake. */
  ghost function Dialled(b: Books, attempt: Attempt): Books
    requires attempt.Dialed?
  {
    var c := b.dialed;
    b.(dialed := c + 1,
       client := if attempt.handshakeOk then Some(c) else None,
       closed := if attempt.watcherCloses || !attempt.handshakeOk then b.closed + {c} else b.closed,
       ctxDone := if attempt.ctxDone then b.ctxDone + {c} else b.ctxDone,
       watchers := if attempt.watcherCloses then b.watchers else b.watchers + {c})
  }

  /** It is a run: dial, perhaps ctx and then the watcher, and the end of the handshake. */
  lemma AttemptRuns(b: Books, attempt: Attempt) returns (acts: seq<Action>)
    requires BooksOk(b) && b.client.None? && b.handshaking.None? && attempt.Dialed? && AttemptOk(attempt)
    ensures Run(b, acts) == Some(Dialled(b, attempt))
  {
    AllClosed(b);
    hide Run, BooksOk;
    var c := b.dialed;
    acts := [Dials];
    OneStep(b, Dials);
    if attempt.ctxDone {
      RunThen(b, acts, CtxDone(c));
      acts := acts + [CtxDone(c)];
    }
    if attempt.watcherCloses {
      RunThen(b, acts, WatcherCloses(c));
      acts := acts + [WatcherCloses(c)];
      assert b.watchers + {c} - {c} == b.watchers;
    }
    var last := if attempt.handshakeOk then HandshakeSucceeds else HandshakeFails;
    RunThen(b, acts, last);
    acts := acts + [last];
    assert b.closed + {c} + {c} == b.closed + {c};
  }

  lemma AllClosed(b: Books)
    requires BooksOk(b)
    ensures b.client.None? && b.handshaking.None? ==> forall c: nat :: c < b.dialed ==> c in b.closed
    ensures b.dialed !in b.closed && b.dialed !in b.watchers
  {
  }

  lemma SftpHasClient(b: Books)
    requires BooksOk(b)
    ensures b.sftp.Some? ==> b.sftp.value < |b.sftpOn| && b.client == Some(b.sftpOn[b.sftp.value])
  {
  }

  lemma NoSteps(b: Books)
    ensures Run(b, []) == Some(b)
  {
  }

  lemma OneStep(b: Books, a: Action)
    ensures Run(b, [a]) == Next(b, a)
  {
    assert [a][..0] == [];
  }

  lemma RunThen(b: Books, acts: seq<Action>, a: Action)
    requires Run(b, acts).Some?
    ensures Run(b, acts + [a]) == Next(Run(b, acts).value, a)
  {
    assert (acts + [a])[..|acts|] == acts;
  }
}
