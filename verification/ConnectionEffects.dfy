/** What each event does to the connection: which closes lead to a re-login and which to a retry, when a
    socket is opened, and that nothing is after a logout (client/js/api.js:258-312, 384-551). */
module ConnectionEffects {
  import opened Connection

  /** The delay before the next retry grows by 1.6, up to 20 seconds. */
  predicate BacksOff(c: Conn, d: Conn) {
    d.backoff == if c.backoff * 1.6 <= 20000.0 then c.backoff * 1.6 else 20000.0
  }

  predicate SameRelogin(c: Conn, d: Conn) {
    d.reauthing == c.reauthing && d.waiters == c.waiters && d.settled == c.settled && d.denied == c.denied
  }

  // ---- Losing the socket ----

  /** Losing the socket with code 4401 starts or joins a re-login, or is denied at once without
      credentials, and sets no retry; losing it otherwise sets a retry and leaves re-logins alone. */
  lemma CloseDecides(c: Conn, id: nat, code: nat)
    requires c.token && c.wantSocket && c.ws == Socket(id)
    ensures var d := Handle(c, SocketClosed(id, code));
         && d.ws == NoSocket && !d.connected && d.token && d.wantSocket && d.gen == c.gen && d.opens == c.opens
         && (code != 4401 ==> d.retry && BacksOff(c, d) && SameRelogin(c, d))
         && (code == 4401 ==> d.retry == c.retry && d.backoff == c.backoff && d.denied == c.denied)
         && (code == 4401 && c.canReauth ==> d.reauthing && d.waiters == c.waiters + 1 && d.settled == c.settled)
         && (code == 4401 && !c.canReauth ==>
               d.reauthing == c.reauthing && d.waiters == c.waiters && d.settled == c.settled + [Denied])
  {
    if code == 4401 { ExpiryRelogs(c, id, code); } else { LossIsRetried(c, id, code); }
  }

  lemma LossIsRetried(c: Conn, id: nat, code: nat)
    requires c.token && c.wantSocket && c.ws == Socket(id) && code != 4401
    ensures var d := Handle(c, SocketClosed(id, code));
         && d.ws == NoSocket && !d.connected && d.token && d.wantSocket && d.gen == c.gen && d.opens == c.opens
         && d.retry && BacksOff(c, d) && SameRelogin(c, d)
  {}

  lemma ExpiryRelogs(c: Conn, id: nat, code: nat)
    requires c.token && c.wantSocket && c.ws == Socket(id) && code == 4401
    ensures var d := Handle(c, SocketClosed(id, code));
         && d.ws == NoSocket && !d.connected && d.token && d.wantSocket && d.gen == c.gen && d.opens == c.opens
         && d.retry == c.retry && d.backoff == c.backoff && d.denied == c.denied
         && (if c.canReauth then d.reauthing && d.waiters == c.waiters + 1 && d.settled == c.settled
             else d.reauthing == c.reauthing && d.waiters == c.waiters && d.settled == c.settled + [Denied])
  {}

  /** A dead socket is closed on this side too, and retried. */
  lemma DeadIsRetried(c: Conn, id: nat)
    requires c.token && c.wantSocket && c.ws == Socket(id)
    ensures var d := Handle(c, SocketDead(id));
            d.ws == NoSocket && !d.connected && id !in d.live && d.retry && BacksOff(c, d) && SameRelogin(c, d)
  {}

  /** Without a session, or when no socket is wanted, a lost socket is let go. */
  lemma UnwantedCloseIsLetGo(c: Conn, id: nat, code: nat)
    requires c.ws == Socket(id) && !(c.token && c.wantSocket)
    ensures var d := Handle(c, SocketClosed(id, code));
            d == c.(ws := NoSocket, connected := false, live := c.live - {id})
  {}

  // ---- Re-logins ----

  predicate NoReloginPending(c: Conn) {
    c.waiters == 0 && c.settled == [] && !c.denied
  }

  lemma HandleNoRelogin(c: Conn, e: Event)
    requires NoReloginPending(c) && !(e.SocketClosed? && e.code == 4401)
    ensures NoReloginPending(Handle(c, e))
  {
    if Opens(e) { OpensNoRelogin(c, e); } else { OthersNoRelogin(c, e); }
  }

  lemma OpensNoRelogin(c: Conn, e: Event)
    requires NoReloginPending(c) && Opens(e)
    ensures NoReloginPending(Handle(c, e))
  {
    match e
    case HealthDone(gen, known, made) => HealthNoRelogin(c, gen, known, made);
    case _ =>
  }

  lemma HealthNoRelogin(c: Conn, gen: nat, known: bool, made: bool)
    requires NoReloginPending(c)
    ensures NoReloginPending(AfterHealth(c, gen, known, made))
  {}

  lemma OthersNoRelogin(c: Conn, e: Event)
    requires NoReloginPending(c) && !Opens(e) && !(e.SocketClosed? && e.code == 4401)
    ensures NoReloginPending(Handle(c, e))
  {}

  /** As long as no socket is closed with code 4401, no close handler waits for a re-login, none has been
      told an outcome, and the client is not denied. */
  lemma {:induction false} OnlyExpiryRelogs(canReauth: bool, events: seq<Event>)
    requires forall e :: e in events ==> !(e.SocketClosed? && e.code == 4401)
    ensures NoReloginPending(Run(Fresh(canReauth), events))
  {
    if |events| > 0 {
      var n := |events| - 1;
      assert events[n] in events;
      OnlyExpiryRelogs(canReauth, events[..n]);
      HandleNoRelogin(Run(Fresh(canReauth), events[..n]), events[n]);
    }
  }

  /** The one re-login in flight ends for everybody who waits for it, with a session exactly if it
      succeeded or there was one. */
  lemma ReloginEnds(c: Conn, outcome: Relogin)
    ensures var d := Handle(c, ReloginDone(outcome));
         && (!c.reauthing ==> d == c)
         && (c.reauthing ==>
               && !d.reauthing && d.waiters == 0 && (d.token <==> c.token || outcome == Ok)
               && |d.settled| == |c.settled| + c.waiters && d.settled[..|c.settled|] == c.settled
               && (forall i :: |c.settled| <= i < |d.settled| ==> d.settled[i] == outcome)
               && d.ws == c.ws && d.retry == c.retry && d.gen == c.gen && d.wantSocket == c.wantSocket)
  {}

  /** A request that is refused starts a re-login if there are credentials and none is in flight. */
  lemma RefusalRelogs(c: Conn)
    ensures var d := Handle(c, RequestUnauthorized);
            d.reauthing == (c.canReauth || c.reauthing) && d == c.(reauthing := d.reauthing)
  {}

  // ---- Opening ----

  /** A new open: its own generation, the old socket closed, any retry cancelled; a new socket, or the
      wait for the relay's features, or another retry if the socket could not be made. */
  predicate Opened(c: Conn, d: Conn, made: bool) {
    && d.gen == c.gen + 1 && !d.connected && !d.denied && (c.ws.Socket? ==> c.ws.id !in d.live || d.ws == c.ws)
    && (c.features && made ==>
          && d.ws == Socket(c.nextSocket) && c.nextSocket in d.live && d.nextSocket == c.nextSocket + 1
          && !d.retry && d.opens == c.opens)
    && (c.features && !made ==> d.ws == NoSocket && d.retry && d.opens == c.opens)
    && (!c.features ==> d.ws == NoSocket && !d.retry && d.opens == c.opens + {d.gen})
  }

  /** The two agree in what an open depends on. */
  predicate SameSocket(c: Conn, b: Conn) {
    && b.ws == c.ws && b.live == c.live && b.gen == c.gen && b.features == c.features
    && b.nextSocket == c.nextSocket && b.opens == c.opens
  }

  lemma OpenDoes(c: Conn, b: Conn, made: bool)
    requires SameSocket(c, b) && b.token
    ensures Opened(c, OpenSocket(b, made), made)
    ensures made ==> OpenSocket(b, made).backoff == b.backoff
    ensures OpenSocket(b, made).wantSocket == b.wantSocket && OpenSocket(b, made).settled == b.settled
    ensures OpenSocket(b, made).token
  {}

  /** The app opens a socket if there is a session, and otherwise nothing happens. */
  lemma AppOpens(c: Conn, made: bool)
    ensures var d := Handle(c, ConnectSocket(made));
            if c.token then Opened(c, d, made) && d.wantSocket else d == c
  {
    if c.token { OpenDoes(c, c.(wantSocket := true), made); }
  }

  /** So does the user, with the least delay. */
  lemma UserReopens(c: Conn, made: bool)
    ensures var d := Handle(c, ReconnectNow(made));
            if c.token then Opened(c, d, made) && d.wantSocket && (made ==> d.backoff == 1000.0) else d == c
  {
    if c.token { OpenDoes(c, c.(retry := false, backoff := MIN_BACKOFF, wantSocket := true), made); }
  }

  /** A retry opens a socket if one is still wanted. */
  lemma RetryOpens(c: Conn, made: bool)
    ensures c.retry && c.wantSocket && c.token ==> Opened(c, Handle(c, RetryTimer(made)), made)
    ensures !c.retry || !c.wantSocket ==> Handle(c, RetryTimer(made)) == c.(retry := false)
  {
    if c.token { OpenDoes(c, c.(retry := false), made); }
  }

  // ---- Close handlers that were told the outcome ----

  /** A new session reopens the socket with the least delay. */
  lemma ToldOkReopens(c: Conn, made: bool)
    requires |c.settled| > 0 && c.settled[0] == Ok && c.wantSocket && c.token
    ensures var d := Handle(c, CloseHandlerResumes(made));
         && Opened(c, d, made) && d.settled == c.settled[1..] && d.wantSocket && d.token
         && (made ==> d.backoff == 1000.0)
  {
    OpenDoes(c, c.(settled := c.settled[1..], backoff := MIN_BACKOFF), made);
  }

  /** A failure is retried. */
  lemma ToldFailedRetries(c: Conn, made: bool)
    requires |c.settled| > 0 && c.settled[0] == Failed && c.wantSocket
    ensures var d := Handle(c, CloseHandlerResumes(made));
         && d.retry && BacksOff(c, d) && d.ws == c.ws && d.gen == c.gen && d.live == c.live
         && d.denied == c.denied && d.settled == c.settled[1..]
  {}

  /** A denial is final, and when no socket is wanted any more nothing happens. */
  lemma ToldDeniedGivesUp(c: Conn, made: bool)
    requires |c.settled| > 0 && (c.settled[0] == Denied || !c.wantSocket)
    ensures Handle(c, CloseHandlerResumes(made))
         == c.(settled := c.settled[1..], denied := c.denied || (c.wantSocket && c.settled[0] == Denied))
  {}

  /** The features of the relay let the open that waits for them go on; unknown, it is retried. */
  lemma HealthDecides(c: Conn, known: bool, made: bool)
    requires c.gen in c.opens && c.token && c.wantSocket
    ensures var d := Handle(c, HealthDone(c.gen, known, made));
         && d.opens == c.opens - {c.gen} && d.gen == c.gen && (d.features <==> c.features || known)
         && (d.features && made ==> d.ws == Socket(c.nextSocket) && d.retry == c.retry && d.backoff == c.backoff)
         && (!d.features || !made ==> d.ws == c.ws && d.retry && BacksOff(c, d))
  {}

  /** The current socket is connected when it is ready, which resets the delay. */
  lemma ReadyConnects(c: Conn, id: nat)
    ensures var d := Handle(c, SocketReady(id));
         && (c.ws == Socket(id) ==> d == c.(connected := true, backoff := if c.connected then c.backoff else 1000.0))
         && (c.ws != Socket(id) ==> d == c)
  {}

  // ---- Logging out ----

  /** After a logout there is no session, no socket and no retry. */
  lemma LogoutCloses(c: Conn)
    ensures var d := Handle(c, LogoutEnd);
            !d.token && d.ws == NoSocket && !d.connected && !d.retry && (c.live == One(c.ws) ==> d.live == {})
  {}

  predicate AsksForSocket(e: Event) {
    e.ConnectSocket? || e.ReconnectNow?
  }

  predicate NothingOpened(c: Conn, d: Conn) {
    !d.wantSocket && d.nextSocket == c.nextSocket && d.live <= c.live
  }

  lemma CloseUnwanted(c: Conn, id: nat, code: nat)
    requires !c.wantSocket
    ensures NothingOpened(c, ClosedByPeer(c, id, code)) && NothingOpened(c, DropSocket(c, id))
  {}

  lemma HealthUnwanted(c: Conn, gen: nat, known: bool, made: bool)
    requires !c.wantSocket
    ensures NothingOpened(c, AfterHealth(c, gen, known, made))
  {}

  lemma HandleUnwanted(c: Conn, e: Event)
    requires !c.wantSocket && !AsksForSocket(e)
    ensures NothingOpened(c, Handle(c, e))
  {
    if e.SocketClosed? {
      CloseUnwanted(c, e.id, e.code);
    } else if e.SocketDead? {
      CloseUnwanted(c, e.id, 4000);
    } else if e.HealthDone? {
      HealthUnwanted(c, e.gen, e.known, e.made);
    } else {
      OtherUnwanted(c, e);
    }
  }

  lemma OtherUnwanted(c: Conn, e: Event)
    requires !c.wantSocket && !AsksForSocket(e) && !e.SocketClosed? && !e.SocketDead? && !e.HealthDone?
    ensures NothingOpened(c, Handle(c, e))
  {}

  /** Once a logout has begun no socket is opened, whatever timers, health requests and re-logins are
      still pending, until the app or the user asks for one. */
  lemma {:induction false} LogoutIsFinal(c: Conn, events: seq<Event>)
    requires forall e :: e in events ==> !AsksForSocket(e)
    ensures var start := Handle(c, LogoutStart);
            NothingOpened(c, Run(start, events))
  {
    if |events| > 0 {
      var n := |events| - 1;
      assert events[n] in events;
      LogoutIsFinal(c, events[..n]);
      HandleUnwanted(Run(Handle(c, LogoutStart), events[..n]), events[n]);
    }
  }
}
