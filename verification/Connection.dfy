/** The WebSocket side of `LattixApi` (client/js/api.js:258-312, 383-551): opening, losing and
    re-opening the one socket, with generations, a retry timer and a single-flight re-login. */
module Connection {

  datatype Relogin = Ok | Denied | Failed

  /** `this.ws`. Sockets are numbered as they are made. */
  datatype Socket = NoSocket | Socket(id: nat)

  function One(ws: Socket): set<nat> {
    if ws.NoSocket? then {} else {ws.id}
  }

  /** The fields of `LattixApi` that decide whether there is a connection, with the parts of the
      outside world that will call back: which opens are waiting for /api/health, how many close
      handlers are waiting for the re-login in flight, and which of them are ready to run. */
  datatype Conn = Conn(
    canReauth: bool,
    token: bool,
    wantSocket: bool,
    ws: Socket,
    connected: bool,
    gen: nat,
    retry: bool,
    backoff: real,
    features: bool,
    opens: set<nat>,
    reauthing: bool,
    waiters: nat,
    settled: seq<Relogin>,
    live: set<nat>,
    nextSocket: nat,
    denied: bool)

  const MIN_BACKOFF := 1000.0
  const MAX_BACKOFF := 20000.0

  /** A fresh client. `live` are the sockets not closed on either side. */
  function Fresh(canReauth: bool): Conn {
    Conn(canReauth, false, false, NoSocket, false, 0, false, MIN_BACKOFF, false, {}, false, 0, [], {}, 0, false)
  }

  function Capped(backoff: real): real { if backoff < MAX_BACKOFF then backoff else MAX_BACKOFF }

  // ---- The internal steps ----

  function Teardown(c: Conn): Conn {
    c.(ws := NoSocket, connected := false)
  }

  function CloseSocket(c: Conn): Conn {
    Teardown(c.(retry := false, live := c.live - One(c.ws)))
  }

  function ScheduleReconnect(c: Conn): Conn {
    c.(retry := true, backoff := Capped(c.backoff * 1.6))
  }

  /** `new WebSocket(url)`, which may throw. */
  function MakeSocket(c: Conn, made: bool): Conn {
    if made then c.(ws := Socket(c.nextSocket), live := c.live + {c.nextSocket}, nextSocket := c.nextSocket + 1)
    else ScheduleReconnect(c)
  }

  /** `_openSocket` up to its first await, or to its end when the features are known. */
  function OpenSocket(c: Conn, made: bool): Conn {
    var d := CloseSocket(c).(gen := c.gen + 1);
    if !d.token then d
    else if d.features then MakeSocket(d.(denied := false), made)
    else d.(denied := false, opens := d.opens + {d.gen})
  }

  /** `_relogin` as a close handler calls it: join the flight, start one, or be denied at once. */
  function AwaitRelogin(c: Conn): Conn {
    if !c.canReauth then c.(settled := c.settled + [Denied])
    else c.(reauthing := true, waiters := c.waiters + 1)
  }

  function HandleClose(c: Conn, id: nat, code: nat): Conn {
    if c.ws != Socket(id) then c
    else
      var d := Teardown(c);
      if !d.token || !d.wantSocket then d
      else if code == 4401 then AwaitRelogin(d)
      else ScheduleReconnect(d)
  }

  function DropSocket(c: Conn, id: nat): Conn {
    if c.ws != Socket(id) then c else HandleClose(c.(live := c.live - {id}), id, 4000)
  }

  function MarkConnected(c: Conn): Conn {
    if c.connected then c else c.(connected := true, backoff := MIN_BACKOFF)
  }

  // ---- Events ----

  datatype Event =
    | Login                                        // register or login came back with a session
    | ConnectSocket(made: bool)
    | ReconnectNow(made: bool)
    | HealthDone(gen: nat, known: bool, made: bool) // the health request of that open has ended
    | SocketReady(id: nat)                         // "ready", or open on a relay without it
    | SocketClosed(id: nat, code: nat)             // the other side closed it
    | SocketDead(id: nat)                          // the ready timeout, the watchdog or the alive check
    | RetryTimer(made: bool)
    | RequestUnauthorized                          // a request got a 401 and starts a re-login
    | ReloginDone(outcome: Relogin)
    | CloseHandlerResumes(made: bool)              // a close handler's `then` runs
    | LogoutStart
    | LogoutEnd

  function AfterHealth(c: Conn, gen: nat, known: bool, made: bool): Conn {
    var d := c.(opens := c.opens - {gen}, features := c.features || known);
    if gen !in c.opens || gen != d.gen || !d.token || !d.wantSocket then d
    else if !d.features then ScheduleReconnect(d)
    else MakeSocket(d, made)
  }

  function AfterRelogin(c: Conn, outcome: Relogin): Conn {
    if !c.reauthing then c
    else c.(token := c.token || outcome == Ok, reauthing := false, waiters := 0,
            settled := c.settled + seq(c.waiters, _ => outcome))
  }

  /** What a close handler does with the outcome of the re-login it waited for. */
  function WithOutcome(c: Conn, outcome: Relogin, made: bool): Conn {
    if !c.wantSocket then c
    else match outcome
      case Ok => OpenSocket(c.(backoff := MIN_BACKOFF), made)
      case Failed => ScheduleReconnect(c)
      case Denied => c.(denied := true)
  }

  function Resume(c: Conn, made: bool): Conn {
    if |c.settled| == 0 then c else WithOutcome(c.(settled := c.settled[1..]), c.settled[0], made)
  }

  function Connect(c: Conn, made: bool): Conn {
    if !c.token then c else OpenSocket(c.(wantSocket := true), made)
  }

  function Reconnect(c: Conn, made: bool): Conn {
    if !c.token then c else OpenSocket(c.(retry := false, backoff := MIN_BACKOFF, wantSocket := true), made)
  }

  function RetryFires(c: Conn, made: bool): Conn {
    if !c.retry then c else if c.wantSocket then OpenSocket(c.(retry := false), made) else c.(retry := false)
  }

  function ClosedByPeer(c: Conn, id: nat, code: nat): Conn {
    HandleClose(c.(live := c.live - {id}), id, code)
  }

  function Unauthorized(c: Conn): Conn {
    if c.canReauth then c.(reauthing := true) else c
  }

  function Handle(c: Conn, e: Event): Conn {
    match e
    case Login => c.(token := true)
    case ConnectSocket(made) => Connect(c, made)
    case ReconnectNow(made) => Reconnect(c, made)
    case HealthDone(gen, known, made) => AfterHealth(c, gen, known, made)
    case SocketReady(id) => if c.ws == Socket(id) then MarkConnected(c) else c
    case SocketClosed(id, code) => ClosedByPeer(c, id, code)
    case SocketDead(id) => DropSocket(c, id)
    case RetryTimer(made) => RetryFires(c, made)
    case RequestUnauthorized => Unauthorized(c)
    case ReloginDone(outcome) => AfterRelogin(c, outcome)
    case CloseHandlerResumes(made) => Resume(c, made)
    case LogoutStart => c.(wantSocket := false)
    case LogoutEnd => CloseSocket(c).(token := false)
  }

  // ---- Shape: at most one live socket, sane timers ----

  ghost predicate Shaped(c: Conn) {
    && c.live == One(c.ws)
    && (c.ws.Socket? ==> c.ws.id < c.nextSocket)
    && (c.connected ==> c.ws.Socket?)
    && (forall g :: g in c.opens ==> g <= c.gen)
    && (c.gen in c.opens ==> c.ws.NoSocket?)
    && (c.waiters > 0 ==> c.reauthing)
    && MIN_BACKOFF <= c.backoff <= MAX_BACKOFF
  }

  lemma OpenShaped(c: Conn, made: bool)
    requires Shaped(c)
    ensures Shaped(OpenSocket(c, made))
  {
    var d := CloseSocket(c).(gen := c.gen + 1);
    assert d.live == {} && d.gen !in d.opens;
  }

  lemma CloseShaped(c: Conn, id: nat, code: nat)
    requires Shaped(c)
    ensures Shaped(ClosedByPeer(c, id, code))
  {
    if c.ws == Socket(id) {
      assert c.live - {id} == {};
    } else {
      assert c.live - {id} == c.live;
    }
  }

  lemma OutcomeShaped(c: Conn, outcome: Relogin, made: bool)
    requires Shaped(c)
    ensures Shaped(WithOutcome(c, outcome, made))
  {
    if outcome == Ok { OpenShaped(c.(backoff := MIN_BACKOFF), made); } else { ScheduleShaped(c); }
  }

  lemma ScheduleShaped(c: Conn)
    requires Shaped(c)
    ensures Shaped(ScheduleReconnect(c))
  {}

  lemma ResumeShaped(c: Conn, made: bool)
    requires Shaped(c)
    ensures Shaped(Resume(c, made))
  {
    if |c.settled| > 0 { OutcomeShaped(c.(settled := c.settled[1..]), c.settled[0], made); }
  }

  lemma ConnectShaped(c: Conn, made: bool)
    requires Shaped(c)
    ensures Shaped(Connect(c, made)) && Shaped(Reconnect(c, made)) && Shaped(RetryFires(c, made))
  {
    OpenShaped(c.(wantSocket := true), made);
    OpenShaped(c.(retry := false, backoff := MIN_BACKOFF, wantSocket := true), made);
    OpenShaped(c.(retry := false), made);
  }

  lemma DropShaped(c: Conn, id: nat)
    requires Shaped(c)
    ensures Shaped(DropSocket(c, id))
  {
    CloseShaped(c, id, 4000);
  }

  lemma ReloginShaped(c: Conn, outcome: Relogin)
    requires Shaped(c)
    ensures Shaped(AfterRelogin(c, outcome))
  {}

  lemma HealthShaped(c: Conn, gen: nat, known: bool, made: bool)
    requires Shaped(c)
    ensures Shaped(AfterHealth(c, gen, known, made))
  {}

  lemma LogoutShaped(c: Conn)
    requires Shaped(c)
    ensures Shaped(CloseSocket(c).(token := false))
  {
    assert c.live - One(c.ws) == {};
  }

  /** Events that may open a socket. */
  predicate Opens(e: Event) {
    e.ConnectSocket? || e.ReconnectNow? || e.RetryTimer? || e.CloseHandlerResumes? || e.HealthDone?
  }

  lemma OpensShaped(c: Conn, e: Event)
    requires Shaped(c) && Opens(e)
    ensures Shaped(Handle(c, e))
  {
    match e
    case ConnectSocket(made) => ConnectShaped(c, made);
    case ReconnectNow(made) => ConnectShaped(c, made);
    case RetryTimer(made) => ConnectShaped(c, made);
    case CloseHandlerResumes(made) => ResumeShaped(c, made);
    case HealthDone(gen, known, made) => HealthShaped(c, gen, known, made);
  }

  lemma ClosesShaped(c: Conn, e: Event)
    requires Shaped(c) && (e.SocketClosed? || e.SocketDead? || e.LogoutEnd?)
    ensures Shaped(Handle(c, e))
  {
    match e
    case SocketClosed(id, code) => CloseShaped(c, id, code);
    case SocketDead(id) => DropShaped(c, id);
    case LogoutEnd => LogoutShaped(c);
  }

  lemma OthersShaped(c: Conn, e: Event)
    requires Shaped(c) && !Opens(e) && !e.SocketClosed? && !e.SocketDead? && !e.LogoutEnd?
    ensures Shaped(Handle(c, e))
  {}

  lemma HandleShaped(c: Conn, e: Event)
    requires Shaped(c)
    ensures Shaped(Handle(c, e))
  {
    if Opens(e) {
      OpensShaped(c, e);
    } else if e.SocketClosed? || e.SocketDead? || e.LogoutEnd? {
      ClosesShaped(c, e);
    } else {
      OthersShaped(c, e);
    }
  }

  // ---- Never stuck ----

  /** Something is under way that will bring the socket back or has: a socket, a retry, an open of
      the current generation, or a close handler with a re-login in flight or just settled. */
  ghost predicate UnderWay(c: Conn) {
    c.ws.Socket? || c.retry || c.gen in c.opens || (c.reauthing && c.waiters > 0) || |c.settled| > 0
  }

  /** A client that has a session, wants a socket and was not denied is not stuck. */
  ghost predicate Moving(c: Conn) {
    c.token && c.wantSocket && !c.denied ==> UnderWay(c)
  }

  /** The session comes back, by a login or by a re-login that no close handler waits for, to a client
      that wants a socket and has nothing pending for it. */
  predicate Strands(c: Conn, e: Event) {
    && (e.Login? || (e == ReloginDone(Ok) && c.reauthing))
    && !c.token && c.wantSocket && !c.denied
    && c.ws.NoSocket? && !c.retry && c.gen !in c.opens && c.settled == []
    && (c.reauthing ==> c.waiters == 0)
  }

  lemma OpenMoving(c: Conn, made: bool)
    ensures Moving(OpenSocket(c, made))
  {}

  lemma CloseMoving(c: Conn, id: nat, code: nat)
    requires Shaped(c) && Moving(c)
    ensures Moving(ClosedByPeer(c, id, code))
  {}

  lemma ResumeMoving(c: Conn, made: bool)
    requires Shaped(c) && Moving(c)
    ensures Moving(Resume(c, made))
  {
    if |c.settled| > 0 && c.wantSocket {
      OpenMoving(c.(settled := c.settled[1..], backoff := MIN_BACKOFF), made);
    }
  }

  lemma HealthMoving(c: Conn, gen: nat, known: bool, made: bool)
    requires Shaped(c) && Moving(c)
    ensures Moving(AfterHealth(c, gen, known, made))
  {}

  lemma OpensMoving(c: Conn, e: Event)
    requires Shaped(c) && Moving(c) && Opens(e)
    ensures Moving(Handle(c, e))
  {
    match e
    case ConnectSocket(made) => OpenMoving(c.(wantSocket := true), made);
    case ReconnectNow(made) => OpenMoving(c.(retry := false, backoff := MIN_BACKOFF, wantSocket := true), made);
    case RetryTimer(made) => OpenMoving(c.(retry := false), made);
    case CloseHandlerResumes(made) => ResumeMoving(c, made);
    case HealthDone(gen, known, made) => HealthMoving(c, gen, known, made);
  }

  lemma ClosesMoving(c: Conn, e: Event)
    requires Shaped(c) && Moving(c) && (e.SocketClosed? || e.SocketDead? || e.LogoutEnd?)
    ensures Moving(Handle(c, e))
  {
    match e
    case SocketClosed(id, code) => CloseMoving(c, id, code);
    case SocketDead(id) => CloseMoving(c, id, 4000);
    case LogoutEnd =>
  }

  lemma ReloginMoving(c: Conn, outcome: Relogin)
    requires Shaped(c) && Moving(c)
    ensures Moving(AfterRelogin(c, outcome)) <==> !Strands(c, ReloginDone(outcome))
  {
    if c.reauthing { assert |AfterRelogin(c, outcome).settled| == |c.settled| + c.waiters; }
  }

  lemma OthersMoving(c: Conn, e: Event)
    requires Shaped(c) && Moving(c) && !Opens(e) && !e.SocketClosed? && !e.SocketDead? && !e.LogoutEnd?
    ensures Moving(Handle(c, e)) <==> !Strands(c, e)
  {
    if e.ReloginDone? { ReloginMoving(c, e.outcome); }
  }

  /** An event leaves the client stuck exactly when it brings the session back to a client that
      nothing else will reconnect. */
  lemma HandleMoving(c: Conn, e: Event)
    requires Shaped(c) && Moving(c)
    ensures Moving(Handle(c, e)) <==> !Strands(c, e)
  {
    if Opens(e) {
      OpensMoving(c, e);
    } else if e.SocketClosed? || e.SocketDead? || e.LogoutEnd? {
      ClosesMoving(c, e);
    } else {
      OthersMoving(c, e);
    }
  }

  // ---- Runs ----

  function Run(c: Conn, events: seq<Event>): Conn {
    if |events| == 0 then c else Handle(Run(c, events[..|events| - 1]), events[|events| - 1])
  }

  lemma RunNext(c: Conn, events: seq<Event>, k: nat)
    requires k < |events|
    ensures Run(c, events[..k + 1]) == Handle(Run(c, events[..k]), events[k])
  {
    assert events[..k + 1][..k] == events[..k];
  }

  lemma {:induction false} RunShaped(c: Conn, events: seq<Event>)
    requires Shaped(c)
    ensures Shaped(Run(c, events))
  {
    if |events| > 0 {
      RunShaped(c, events[..|events| - 1]);
      HandleShaped(Run(c, events[..|events| - 1]), events[|events| - 1]);
    }
  }

  /** No event of this run strands the client. */
  predicate NothingStrands(c: Conn, events: seq<Event>) {
    forall k :: 0 <= k < |events| ==> !Strands(Run(c, events[..k]), events[k])
  }

  ghost predicate AlwaysMoving(c: Conn, events: seq<Event>) {
    forall k :: 0 <= k <= |events| ==> Moving(Run(c, events[..k]))
  }

  lemma {:induction false} MovingUpTo(c: Conn, events: seq<Event>, k: nat)
    requires Shaped(c) && Moving(c) && NothingStrands(c, events) && k <= |events|
    ensures Moving(Run(c, events[..k]))
  {
    if k > 0 {
      MovingUpTo(c, events, k - 1);
      RunShaped(c, events[..k - 1]);
      RunNext(c, events, k - 1);
      HandleMoving(Run(c, events[..k - 1]), events[k - 1]);
    }
  }

  lemma RunMoving(c: Conn, events: seq<Event>)
    requires Shaped(c) && Moving(c)
    ensures AlwaysMoving(c, events) <==> NothingStrands(c, events)
  {
    if NothingStrands(c, events) {
      forall k | 0 <= k <= |events|
        ensures Moving(Run(c, events[..k]))
      {
        MovingUpTo(c, events, k);
      }
    }
    if AlwaysMoving(c, events) {
      forall k | 0 <= k < |events|
        ensures !Strands(Run(c, events[..k]), events[k])
      {
        RunShaped(c, events[..k]);
        RunNext(c, events, k);
        HandleMoving(Run(c, events[..k]), events[k]);
        assert Moving(Run(c, events[..k])) && Moving(Run(c, events[..k + 1]));
      }
    }
  }

  /** In every run: at most one live socket, which is the current one; `connected` only with a socket;
      backoff within bounds. */
  lemma OneSocket(canReauth: bool, events: seq<Event>)
    ensures var c := Run(Fresh(canReauth), events);
         && c.live == One(c.ws)
         && (c.connected ==> c.ws.Socket?)
         && MIN_BACKOFF <= c.backoff <= MAX_BACKOFF
  {
    RunShaped(Fresh(canReauth), events);
  }

  /** The client is not stuck at any point of a run exactly when no event of the run strands it. */
  lemma NeverStuck(canReauth: bool, events: seq<Event>)
    ensures AlwaysMoving(Fresh(canReauth), events) <==> NothingStrands(Fresh(canReauth), events)
  {
    RunMoving(Fresh(canReauth), events);
  }

  /** Events of sockets that are no longer the current one, and the end of a health request of an
      earlier generation, change nothing the client acts on. */
  lemma StaleEventsChangeNothing(c: Conn, id: nat, code: nat, gen: nat, known: bool, made: bool)
    requires Shaped(c) && c.ws != Socket(id) && gen != c.gen
    ensures Handle(c, SocketReady(id)) == c && Handle(c, SocketClosed(id, code)) == c && Handle(c, SocketDead(id)) == c
    ensures Handle(c, HealthDone(gen, known, made)) == c.(opens := c.opens - {gen}, features := c.features || known)
  {
    assert c.live - {id} == c.live;
  }

  // ---- A run that gets stuck ----

  lemma RunMore(c: Conn, events: seq<Event>, e: Event)
    ensures Run(c, events + [e]) == Handle(Run(c, events), e)
  {
    assert (events + [e])[..|events|] == events;
  }

  lemma RunTwoMore(c: Conn, events: seq<Event>, d: Event, e: Event)
    ensures Run(c, events + [d] + [e]) == Handle(Handle(Run(c, events), d), e)
  {
    RunMore(c, events, d);
    RunMore(c, events + [d], e);
  }

  const CONNECTED := [] + [Login] + [ConnectSocket(true)] + [HealthDone(1, true, true)] + [RequestUnauthorized]

  const STRANDING_RUN := CONNECTED + [LogoutStart] + [ReconnectNow(true)] + [LogoutEnd] + [ReloginDone(Ok)]

  lemma ConnectedState()
    ensures var c := Run(Fresh(true), CONNECTED);
         && c.token && c.features && c.canReauth && c.reauthing && c.waiters == 0 && !c.denied
         && c.ws == Socket(0) && c.gen == 1 && c.opens == {} && c.settled == [] && !c.retry
  {
    var none: seq<Event> := [];
    RunTwoMore(Fresh(true), none, Login, ConnectSocket(true));
    var c := Run(Fresh(true), none + [Login] + [ConnectSocket(true)]);
    assert c.gen == 1 && c.opens == {1} && !c.features && c.token && c.wantSocket && c.nextSocket == 0;
    RunTwoMore(Fresh(true), none + [Login] + [ConnectSocket(true)], HealthDone(1, true, true), RequestUnauthorized);
  }

  /** A logout is under way, the user asks to reconnect, the logout ends, and a re-login that a
      request had started renews the session: the client has a session and wants a socket, but
      nothing is under way. */
  lemma ReconnectingDuringLogout()
    ensures !Moving(Run(Fresh(true), STRANDING_RUN))
  {
    ConnectedState();
    var c := Run(Fresh(true), CONNECTED);
    RunTwoMore(Fresh(true), CONNECTED, LogoutStart, ReconnectNow(true));
    var d := Handle(Handle(c, LogoutStart), ReconnectNow(true));
    assert d.ws.Socket? && d.wantSocket && d.reauthing && d.waiters == 0 && d.settled == [] && d.opens == {};
    RunTwoMore(Fresh(true), CONNECTED + [LogoutStart] + [ReconnectNow(true)], LogoutEnd, ReloginDone(Ok));
    var f := Handle(d, LogoutEnd);
    assert f.ws.NoSocket? && !f.retry && f.wantSocket && !f.token && f.settled == [] && f.reauthing;
    assert Handle(f, ReloginDone(Ok)).settled == [];
  }
}
