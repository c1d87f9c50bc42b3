/** `LattixApi` as the object it is (client/js/api.js:258-312, 383-551): its fields change in place,
    and every method leaves exactly the state the connection machine says. */
module Api {
  import C = Connection

  class LattixApi {
    const canReauth: bool
    var token: bool
    var wantSocket: bool
    var ws: C.Socket
    var connected: bool
    var gen: nat
    var retry: bool
    var backoff: real
    var features: bool
    var reauthing: bool
    // The callbacks that the browser holds for this object, and its sockets.
    var opens: set<nat>
    var waiters: nat
    var settled: seq<C.Relogin>
    var live: set<nat>
    var nextSocket: nat
    var denied: bool

    function State(): C.Conn
      reads this
    {
      C.Conn(canReauth, token, wantSocket, ws, connected, gen, retry, backoff, features, opens,
             reauthing, waiters, settled, live, nextSocket, denied)
    }

    /** At most one live socket, the current one; `connected` only with it; generations and backoff
        within bounds. */
    ghost predicate Valid()
      reads this
    {
      C.Shaped(State())
    }

    constructor (canReauth: bool)
      ensures State() == C.Fresh(canReauth) && Valid() && C.Moving(State())
    {
      this.canReauth := canReauth;
      token, wantSocket, ws, connected := false, false, C.NoSocket, false;
      gen, retry, backoff, features := 0, false, C.MIN_BACKOFF, false;
      opens, reauthing, waiters, settled := {}, false, 0, [];
      live, nextSocket, denied := {}, 0, false;
    }

    method Teardown()
      modifies this
      ensures State() == C.Teardown(old(State()))
    {
      ws := C.NoSocket;
      connected := false;
    }

    method CloseSocket()
      modifies this
      ensures State() == C.CloseSocket(old(State()))
    {
      retry := false;
      var was := ws;
      Teardown();
      if was.Socket? {
        live := live - {was.id};
      }
    }

    method ScheduleReconnect()
      modifies this
      ensures State() == C.ScheduleReconnect(old(State()))
      ensures old(Valid()) ==> old(backoff) <= backoff <= C.MAX_BACKOFF
    {
      backoff := C.Capped(backoff * 1.6);
      retry := true;
    }

    /** `new WebSocket(url)`; `made` says whether it came back. */
    method MakeSocket(made: bool)
      modifies this
      ensures State() == C.MakeSocket(old(State()), made)
    {
      if !made {
        ScheduleReconnect();
        return;
      }
      ws := C.Socket(nextSocket);
      live := live + {nextSocket};
      nextSocket := nextSocket + 1;
    }

    /** Runs to the health request when the features of the relay are not known yet. */
    method OpenSocket(made: bool)
      modifies this
      ensures State() == C.OpenSocket(old(State()), made)
    {
      CloseSocket();
      gen := gen + 1;
      if !token {
        return;
      }
      denied := false;
      if !features {
        opens := opens + {gen};
        return;
      }
      MakeSocket(made);
    }

    /** The rest of an open that waited for the health request. */
    method AfterHealth(mine: nat, known: bool, made: bool)
      requires Valid()
      modifies this
      ensures Valid()
      ensures State() == C.AfterHealth(old(State()), mine, known, made)
    {
      C.HealthShaped(State(), mine, known, made);
      var waited := mine in opens;
      opens := opens - {mine};
      features := features || known;
      if !waited || mine != gen || !token || !wantSocket {
        return;
      }
      if !features {
        ScheduleReconnect();
        return;
      }
      MakeSocket(made);
    }

    method ConnectSocket(made: bool)
      requires Valid()
      modifies this
      ensures Valid()
      ensures State() == C.Connect(old(State()), made)
    {
      C.ConnectShaped(State(), made);
      if !token {
        return;
      }
      wantSocket := true;
      assert State() == old(State()).(wantSocket := true);
      OpenSocket(made);
    }

    method ReconnectNow(made: bool)
      requires Valid()
      modifies this
      ensures Valid()
      ensures State() == C.Reconnect(old(State()), made)
    {
      C.ConnectShaped(State(), made);
      if !token {
        return;
      }
      retry := false;
      backoff := C.MIN_BACKOFF;
      wantSocket := true;
      assert State() == old(State()).(retry := false, backoff := C.MIN_BACKOFF, wantSocket := true);
      OpenSocket(made);
    }

    method RetryTimer(made: bool)
      requires Valid()
      modifies this
      ensures Valid()
      ensures State() == C.RetryFires(old(State()), made)
    {
      C.ConnectShaped(State(), made);
      if !retry {
        return;
      }
      retry := false;
      assert State() == old(State()).(retry := false);
      if wantSocket {
        OpenSocket(made);
      }
    }

    method MarkConnected()
      modifies this
      ensures State() == C.MarkConnected(old(State()))
    {
      if connected {
        return;
      }
      connected := true;
      backoff := C.MIN_BACKOFF;
    }

    method SocketReady(id: nat)
      requires Valid()
      modifies this
      ensures Valid()
      ensures State() == if old(State()).ws == C.Socket(id) then C.MarkConnected(old(State())) else old(State())
    {
      if ws == C.Socket(id) {
        MarkConnected();
      }
    }

    /** A close handler joins the re-login in flight, starts one, or is denied at once. */
    method AwaitRelogin()
      modifies this
      ensures State() == C.AwaitRelogin(old(State()))
    {
      if !canReauth {
        settled := settled + [C.Denied];
        return;
      }
      reauthing := true;
      waiters := waiters + 1;
    }

    method HandleClose(id: nat, code: nat)
      modifies this
      ensures State() == C.HandleClose(old(State()), id, code)
    {
      if ws != C.Socket(id) {
        return;
      }
      Teardown();
      if !token || !wantSocket {
        return;
      }
      if code == 4401 {
        AwaitRelogin();
        return;
      }
      ScheduleReconnect();
    }

    method SocketClosed(id: nat, code: nat)
      requires Valid()
      modifies this
      ensures Valid()
      ensures State() == C.ClosedByPeer(old(State()), id, code)
    {
      C.CloseShaped(State(), id, code);
      live := live - {id};
      HandleClose(id, code);
    }

    method DropSocket(id: nat)
      requires Valid()
      modifies this
      ensures Valid()
      ensures State() == C.DropSocket(old(State()), id)
    {
      C.DropShaped(State(), id);
      if ws != C.Socket(id) {
        return;
      }
      live := live - {id};
      HandleClose(id, 4000);
    }

    /** A request was answered 401; the re-login is single-flight. */
    method RequestUnauthorized()
      requires Valid()
      modifies this
      ensures Valid()
      ensures State() == C.Unauthorized(old(State()))
    {
      if canReauth && !reauthing {
        reauthing := true;
      }
    }

    /** Every close handler that waits for the re-login gets its outcome. */
    method TellWaiters(outcome: C.Relogin)
      modifies this`settled, this`waiters
      ensures waiters == 0
      ensures settled == old(settled) + seq(old(waiters), _ => outcome)
    {
      while waiters > 0
        invariant waiters <= old(waiters)
        invariant settled == old(settled) + seq(old(waiters) - waiters, _ => outcome)
      {
        settled := settled + [outcome];
        waiters := waiters - 1;
      }
    }

    /** The re-login in flight settles. */
    method ReloginDone(outcome: C.Relogin)
      requires Valid()
      modifies this
      ensures Valid()
      ensures State() == C.AfterRelogin(old(State()), outcome)
    {
      C.ReloginShaped(State(), outcome);
      if !reauthing {
        return;
      }
      if outcome == C.Ok {
        token := true;
      }
      reauthing := false;
      TellWaiters(outcome);
    }

    method WithOutcome(outcome: C.Relogin, made: bool)
      modifies this
      ensures State() == C.WithOutcome(old(State()), outcome, made)
    {
      if !wantSocket {
        return;
      }
      match outcome {
        case Ok =>
          backoff := C.MIN_BACKOFF;
          OpenSocket(made);
        case Failed =>
          ScheduleReconnect();
        case Denied =>
          denied := true;
      }
    }

    method CloseHandlerResumes(made: bool)
      requires Valid()
      modifies this
      ensures Valid()
      ensures State() == C.Resume(old(State()), made)
    {
      C.ResumeShaped(State(), made);
      if |settled| == 0 {
        return;
      }
      var outcome := settled[0];
      settled := settled[1..];
      assert State() == old(State()).(settled := settled);
      WithOutcome(outcome, made);
    }

    method Login()
      requires Valid()
      modifies this
      ensures Valid()
      ensures State() == old(State()).(token := true)
    {
      token := true;
    }

    method LogoutStart()
      requires Valid()
      modifies this
      ensures Valid()
      ensures State() == old(State()).(wantSocket := false)
    {
      wantSocket := false;
    }

    /** The logout request has ended, one way or the other. */
    method LogoutEnd()
      requires Valid()
      modifies this
      ensures Valid()
      ensures State() == C.CloseSocket(old(State())).(token := false)
    {
      C.LogoutShaped(State());
      CloseSocket();
      token := false;
    }

    // ---- The event loop ----

    /** The browser calls one handler. Only an event that strands the client leaves it stuck. */
    method Dispatch(e: C.Event)
      requires Valid()
      modifies this
      ensures Valid() && State() == C.Handle(old(State()), e)
      ensures old(C.Moving(State())) ==> (C.Moving(State()) <==> !C.Strands(old(State()), e))
    {
      if C.Moving(State()) { C.HandleMoving(State(), e); }
      match e {
        case Login => Login();
        case ConnectSocket(made) => ConnectSocket(made);
        case ReconnectNow(made) => ReconnectNow(made);
        case HealthDone(mine, known, made) => AfterHealth(mine, known, made);
        case SocketReady(id) => SocketReady(id);
        case SocketClosed(id, code) => SocketClosed(id, code);
        case SocketDead(id) => DropSocket(id);
        case RetryTimer(made) => RetryTimer(made);
        case RequestUnauthorized => RequestUnauthorized();
        case ReloginDone(outcome) => ReloginDone(outcome);
        case CloseHandlerResumes(made) => CloseHandlerResumes(made);
        case LogoutStart => LogoutStart();
        case LogoutEnd => LogoutEnd();
      }
    }

    /** Whatever happens: one live socket at most, backoff within bounds; and unless an event strands
        the client, a session that wants a socket has one or has something under way to get it. */
    method Process(events: seq<C.Event>)
      requires Valid() && C.Moving(State())
      modifies this
      ensures Valid() && State() == C.Run(old(State()), events)
      ensures live == C.One(ws) && (connected ==> ws.Socket?) && C.MIN_BACKOFF <= backoff <= C.MAX_BACKOFF
      ensures C.NothingStrands(old(State()), events) ==> C.Moving(State())
    {
      ghost var start := State();
      C.RunMoving(start, events);
      for i := 0 to |events|
        invariant Valid() && State() == C.Run(start, events[..i])
      {
        C.RunNext(start, events, i);
        Dispatch(events[i]);
      }
      assert events[..|events|] == events;
    }
  }
}
