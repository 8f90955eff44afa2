/**
  The classes WebsocketSession and WebsocketMessenger. Every API call and handler is proved to be
  the corresponding step of SessionProtocol.
 */
module Websocket {
  import opened P = SessionProtocol

  // ---------------------------------------------------------------- WebsocketSession

  class WebsocketSession {
    var state: SessionState
    var sendMsgQueue: seq<string>

    /** The I/O context's part: operations started on the resolver, the stream and the strand. */
    var pending: Pending
    /** What has happened so far. */
    ghost var log: Log

    ghost function AsSession(): Session
      reads this
    {
      Session(state, sendMsgQueue, pending, log)
    }

    constructor ()
      ensures AsSession() == NEW_SESSION
    {
      state, sendMsgQueue, pending, log := Disconnected, [], NEW_SESSION.pending, NEW_SESSION.log;
    }

    method Connect()
      modifies this
      ensures AsSession() == P.Connect(old(AsSession()))
    {
      if state == Disconnected || state == NetError {
        state := Connecting;
        pending := pending.(resolving := pending.resolving + 1);
        log := log.(attempts := log.attempts + 1);
      }
    }

    method Disconnect()
      modifies this
      ensures AsSession() == P.Disconnect(old(AsSession()))
    {
      if state != Disconnected {
        pending := pending.(closing := pending.closing + 1);
      }
    }

    method SendData(data: string)
      modifies this
      ensures AsSession() == P.SendData(old(AsSession()), data)
    {
      if state == Disconnected || state == NetError {
        return;
      }
      pending := pending.(posted := pending.posted + [data]);
      log := log.(accepted := log.accepted + [data]);
    }

    /** Takes the posted message that is next on the strand. */
    method SendDataInner()
      requires pending.posted != []
      modifies this
      ensures AsSession() == P.SendDataInner(old(AsSession()))
    {
      var data := pending.posted[0];
      pending := pending.(posted := pending.posted[1..]);
      log := log.(executed := log.executed + [data]);
      sendMsgQueue := sendMsgQueue + [data];
      if |sendMsgQueue| > 1 {
        return;
      }
      AsyncWriteFront();
    }

    method AsyncWriteFront()
      requires sendMsgQueue != []
      modifies this`pending
      ensures pending == old(pending).(writing := old(pending).writing + [sendMsgQueue[0]])
    {
      pending := pending.(writing := pending.writing + [sendMsgQueue[0]]);
    }

    /** Erases the queue's first element, which is there in every reachable state. */
    method OnWrite(ok: bool) returns (callback: Callback)
      requires pending.writing != [] && sendMsgQueue != []
      modifies this
      ensures (AsSession(), callback) == P.OnWrite(old(AsSession()), ok)
    {
      ghost var data := pending.writing[0];
      pending := pending.(writing := pending.writing[1..]);
      if !ok {
        log := log.(writeFailed := true);
        state := NetError;
        return OnError(SendError);
      }
      log := log.(written := log.written + [data]);
      sendMsgQueue := sendMsgQueue[1..];
      if sendMsgQueue != [] {
        AsyncWriteFront();
      }
      return NoCallback;
    }

    method OnResolve(ok: bool) returns (callback: Callback)
      requires pending.resolving > 0
      modifies this
      ensures (AsSession(), callback) == P.OnResolve(old(AsSession()), ok)
    {
      pending := pending.(resolving := pending.resolving - 1);
      if !ok {
        state := NetError;
        return OnError(ConnectError);
      }
      pending := pending.(connecting := pending.connecting + 1);
      return NoCallback;
    }

    method OnConnect(ok: bool) returns (callback: Callback)
      requires pending.connecting > 0
      modifies this
      ensures (AsSession(), callback) == P.OnConnect(old(AsSession()), ok)
    {
      pending := pending.(connecting := pending.connecting - 1);
      if !ok {
        state := NetError;
        return OnError(ConnectError);
      }
      pending := pending.(handshaking := pending.handshaking + 1);
      return NoCallback;
    }

    method OnHandshake(ok: bool) returns (callback: Callback)
      requires pending.handshaking > 0
      modifies this
      ensures (AsSession(), callback) == P.OnHandshake(old(AsSession()), ok)
    {
      pending := pending.(handshaking := pending.handshaking - 1);
      if !ok {
        state := NetError;
        return OnError(ConnectError);
      }
      state := Connected;
      DoRead();
      return OnConnected;
    }

    method OnClosed(ok: bool) returns (callback: Callback)
      requires pending.closing > 0
      modifies this
      ensures (AsSession(), callback) == P.OnClose(old(AsSession()), ok)
    {
      pending := pending.(closing := pending.closing - 1);
      if !ok {
        state := NetError;
        return OnError(CloseError);
      }
      state := Disconnected;
      return Callback.OnClosed;
    }

    method OnDisconnected() returns (callback: Callback)
      modifies this`state
      ensures state == NetError && callback == OnError(DisconnectError)
    {
      state := NetError;
      return OnError(DisconnectError);
    }

    method OnRead(result: ReadResult) returns (callback: Callback)
      requires pending.reading > 0
      modifies this
      ensures (AsSession(), callback) == P.OnRead(old(AsSession()), result)
    {
      pending := pending.(reading := pending.reading - 1);
      if result == Canceled {
        return NoCallback;
      }
      if result == RemoteClosed {
        callback := OnDisconnected();
        return;
      }
      if result == Failed {
        state := NetError;
        return OnError(ReceiveError);
      }
      DoRead();
      return OnReceived;
    }

    method DoRead()
      modifies this`pending
      ensures pending == old(pending).(reading := old(pending).reading + 1)
    {
      pending := pending.(reading := pending.reading + 1);
    }
  }

  // ---------------------------------------------------------------- WebsocketMessenger

  class WebsocketMessenger {
    const websocket: WebsocketSession
    var state: MessengerState
    var tryToRecovery: bool

    /** Waits of the recovery timer whose handlers have not run. */
    var waits: nat
    ghost var armed: nat
    ghost var ended: nat
    ghost var reconnects: nat

    ghost function AsNet(): Net
      reads this, websocket
    {
      Net(websocket.AsSession(), Messenger(state, tryToRecovery, waits, armed, ended, reconnects))
    }

    constructor ()
      ensures fresh(websocket) && AsNet() == START
    {
      websocket := new WebsocketSession();
      state, tryToRecovery := MessengerClosed, true;
      waits, armed, ended, reconnects := 0, 0, 0, 0;
    }

    method Open()
      modifies this, websocket
      ensures AsNet() == Apply(old(AsNet()), P.Open)
    {
      tryToRecovery := true;
      websocket.Connect();
    }

    /** Cancelling the timer completes its waits early; their handlers still run. */
    method Close()
      modifies this, websocket
      ensures AsNet() == Apply(old(AsNet()), P.Close)
    {
      tryToRecovery := false;
      websocket.Disconnect();
    }

    method SendMessage(msg: string)
      modifies websocket
      ensures AsNet() == Apply(old(AsNet()), Send(msg))
    {
      websocket.SendData(msg);
    }

    method OnConnectedCallback()
      modifies this`state
      ensures AsNet() == old(AsNet()).(messenger := OnCallback(old(AsNet()).messenger, OnConnected))
    {
      state := MessengerOpened;
    }

    method OnClosedCallback()
      modifies this`state
      ensures AsNet() == old(AsNet()).(messenger := OnCallback(old(AsNet()).messenger, Callback.OnClosed))
    {
      state := MessengerClosed;
    }

    method OnErrorCallback(error: SessionError)
      modifies this
      ensures AsNet() == old(AsNet()).(messenger := OnCallback(old(AsNet()).messenger, OnError(error)))
    {
      state := MessengerError;
      var needRestore := false;
      match error {
        case ConnectError => needRestore := true;
        case SendError =>
        case ReceiveError => needRestore := true;
        case CloseError =>
        case DisconnectError => needRestore := true;
      }
      if needRestore && tryToRecovery {
        waits := waits + 1;
        armed := armed + 1;
      }
    }

    /** The handler of async_wait, which ignores its error code. */
    method OnTimer()
      requires waits > 0
      modifies this, websocket
      ensures AsNet() == Apply(old(AsNet()), TimerEnded)
    {
      waits := waits - 1;
      ended := ended + 1;
      if state != MessengerClosed {
        websocket.Connect();
        reconnects := reconnects + 1;
      }
    }

    /** The session's callbacks, as the constructor binds them. */
    method Deliver(callback: Callback)
      modifies this
      ensures AsNet() == old(AsNet()).(messenger := OnCallback(old(AsNet()).messenger, callback))
    {
      match callback {
        case NoCallback =>
        case OnConnected => OnConnectedCallback();
        case OnClosed => OnClosedCallback();
        case OnError(error) => OnErrorCallback(error);
        case OnReceived =>
      }
    }

    /** One step of the system: an API call, or a handler that the I/O context runs. */
    method Perform(e: Event)
      requires Enabled(AsNet(), e) && Pipeline(websocket.AsSession())
      modifies this, websocket
      ensures AsNet() == Apply(old(AsNet()), e) && Pipeline(websocket.AsSession())
    {
      StepKeepsPipeline(AsNet(), e);
      var callback := NoCallback;
      match e {
        case Open => Open();
        case Close => Close();
        case Send(data) => SendMessage(data);
        case Posted => websocket.SendDataInner();
        case Resolved(ok) => callback := websocket.OnResolve(ok);
        case TcpConnected(ok) => callback := websocket.OnConnect(ok);
        case Handshaken(ok) => callback := websocket.OnHandshake(ok);
        case Closed(ok) => callback := websocket.OnClosed(ok);
        case Written(ok) => callback := websocket.OnWrite(ok);
        case ReadDone(result) => callback := websocket.OnRead(result);
        case TimerEnded => OnTimer();
      }
      Deliver(callback);
    }
  }
}
