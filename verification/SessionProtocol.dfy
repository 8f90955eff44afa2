/**
  WebsocketSession and WebsocketMessenger as a step system: one step is one API call, or one handler
  that the I/O context runs on the session's strand or for the recovery timer. How an operation ends
  is left open; that its handler runs once is the I/O context's contract, so a handler can run only
  while an operation of its kind is pending.
 */
module SessionProtocol {

  datatype SessionState = Disconnected | Connecting | Connected | NetError
  datatype SessionError = ConnectError | SendError | ReceiveError | CloseError | DisconnectError
  datatype MessengerState = MessengerClosed | MessengerOpened | MessengerError

  /** What a session handler reports to the messenger. */
  datatype Callback = NoCallback | OnConnected | OnClosed | OnError(error: SessionError) | OnReceived

  datatype ReadResult = Canceled | RemoteClosed | Failed | Got

  // ---------------------------------------------------------------- the session

  /** Operations started whose handlers have not run; posted handlers run in posting order. */
  datatype Pending = Pending(resolving: nat, connecting: nat, handshaking: nat, reading: nat, closing: nat,
                             writing: seq<string>, posted: seq<string>)

  /**
    What has happened: messages SendData took, messages run through SendDataInner, messages whose
    write succeeded, whether a write has failed, and how often a connection was attempted.
   */
  datatype Log = Log(accepted: seq<string>, executed: seq<string>, written: seq<string>,
                     writeFailed: bool, attempts: nat)

  datatype Session = Session(state: SessionState, queue: seq<string>, pending: Pending, log: Log)

  const NEW_SESSION := Session(Disconnected, [], Pending(0, 0, 0, 0, 0, [], []), Log([], [], [], false, 0))

  function Connect(s: Session): Session {
    if s.state == Disconnected || s.state == NetError then
      s.(state := Connecting, pending := s.pending.(resolving := s.pending.resolving + 1),
         log := s.log.(attempts := s.log.attempts + 1))
    else s
  }

  function Disconnect(s: Session): Session {
    if s.state != Disconnected then s.(pending := s.pending.(closing := s.pending.closing + 1)) else s
  }

  function SendData(s: Session, data: string): Session {
    if s.state == Disconnected || s.state == NetError then s
    else
      s.(pending := s.pending.(posted := s.pending.posted + [data]),
         log := s.log.(accepted := s.log.accepted + [data]))
  }

  /** Starts writing the front of the queue. */
  function WriteFront(s: Session): Session
    requires s.queue != []
  {
    s.(pending := s.pending.(writing := s.pending.writing + [s.queue[0]]))
  }

  function SendDataInner(s: Session): Session
    requires s.pending.posted != []
  {
    var data := s.pending.posted[0];
    var t := s.(queue := s.queue + [data], pending := s.pending.(posted := s.pending.posted[1..]),
                log := s.log.(executed := s.log.executed + [data]));
    if |t.queue| > 1 then t else WriteFront(t)
  }

  /** The queue's first element is erased unseen; erasing from an empty queue leaves it empty here. */
  function OnWrite(s: Session, ok: bool): (Session, Callback)
    requires s.pending.writing != []
  {
    var data := s.pending.writing[0];
    var t := s.(pending := s.pending.(writing := s.pending.writing[1..]));
    if !ok then (t.(state := NetError, log := t.log.(writeFailed := true)), OnError(SendError))
    else
      var u := t.(queue := if t.queue == [] then [] else t.queue[1..],
                  log := t.log.(written := t.log.written + [data]));
      (if u.queue != [] then WriteFront(u) else u, NoCallback)
  }

  function OnResolve(s: Session, ok: bool): (Session, Callback)
    requires s.pending.resolving > 0
  {
    var t := s.(pending := s.pending.(resolving := s.pending.resolving - 1));
    if !ok then (t.(state := NetError), OnError(ConnectError))
    else (t.(pending := t.pending.(connecting := t.pending.connecting + 1)), NoCallback)
  }

  function OnConnect(s: Session, ok: bool): (Session, Callback)
    requires s.pending.connecting > 0
  {
    var t := s.(pending := s.pending.(connecting := s.pending.connecting - 1));
    if !ok then (t.(state := NetError), OnError(ConnectError))
    else (t.(pending := t.pending.(handshaking := t.pending.handshaking + 1)), NoCallback)
  }

  function OnHandshake(s: Session, ok: bool): (Session, Callback)
    requires s.pending.handshaking > 0
  {
    var t := s.(pending := s.pending.(handshaking := s.pending.handshaking - 1));
    if !ok then (t.(state := NetError), OnError(ConnectError))
    else (t.(state := Connected, pending := t.pending.(reading := t.pending.reading + 1)), OnConnected)
  }

  function OnClose(s: Session, ok: bool): (Session, Callback)
    requires s.pending.closing > 0
  {
    var t := s.(pending := s.pending.(closing := s.pending.closing - 1));
    if !ok then (t.(state := NetError), OnError(CloseError)) else (t.(state := Disconnected), OnClosed)
  }

  function OnRead(s: Session, result: ReadResult): (Session, Callback)
    requires s.pending.reading > 0
  {
    var t := s.(pending := s.pending.(reading := s.pending.reading - 1));
    match result
    case Canceled => (t, NoCallback)
    case RemoteClosed => (t.(state := NetError), OnError(DisconnectError))
    case Failed => (t.(state := NetError), OnError(ReceiveError))
    case Got => (s, OnReceived)
  }

  // ---------------------------------------------------------------- the messenger

  /**
    Fields of the messenger, the timer waits whose handlers have not run, and counts of the errors
    that armed a wait, of the wait handlers run, and of the Connect calls they made.
   */
  datatype Messenger = Messenger(state: MessengerState, tryToRecovery: bool, waits: nat,
                                 armed: nat, ended: nat, reconnects: nat)

  const NEW_MESSENGER := Messenger(MessengerClosed, true, 0, 0, 0, 0)

  predicate NeedsRestore(error: SessionError) {
    error == ConnectError || error == ReceiveError || error == DisconnectError
  }

  function OnCallback(m: Messenger, callback: Callback): Messenger {
    match callback
    case NoCallback => m
    case OnReceived => m
    case OnConnected => m.(state := MessengerOpened)
    case OnClosed => m.(state := MessengerClosed)
    case OnError(error) =>
      var m' := m.(state := MessengerError);
      if NeedsRestore(error) && m.tryToRecovery then m'.(waits := m.waits + 1, armed := m.armed + 1) else m'
  }

  // ---------------------------------------------------------------- steps and runs

  datatype Net = Net(session: Session, messenger: Messenger)

  const START := Net(NEW_SESSION, NEW_MESSENGER)

  /** Before the first step both are closed, nothing is under way, and recovery is on. */
  lemma StartIs()
    ensures START == Net(Session(Disconnected, [], Pending(0, 0, 0, 0, 0, [], []), Log([], [], [], false, 0)),
                         Messenger(MessengerClosed, true, 0, 0, 0, 0))
  {
  }

  datatype Event =
    | Open
    | Close
    | Send(data: string)
    | Posted
    | Resolved(ok: bool)
    | TcpConnected(ok: bool)
    | Handshaken(ok: bool)
    | Closed(ok: bool)
    | Written(ok: bool)
    | ReadDone(result: ReadResult)
    | TimerEnded

  predicate Enabled(n: Net, e: Event) {
    var p := n.session.pending;
    match e
    case Open => true
    case Close => true
    case Send(_) => true
    case Posted => p.posted != []
    case Resolved(_) => p.resolving > 0
    case TcpConnected(_) => p.connecting > 0
    case Handshaken(_) => p.handshaking > 0
    case Closed(_) => p.closing > 0
    case Written(_) => p.writing != []
    case ReadDone(_) => p.reading > 0
    case TimerEnded => n.messenger.waits > 0
  }

  /** A session handler followed by the messenger's callback. */
  function Report(n: Net, r: (Session, Callback)): Net {
    Net(r.0, OnCallback(n.messenger, r.1))
  }

  function Apply(n: Net, e: Event): Net
    requires Enabled(n, e)
  {
    var s, m := n.session, n.messenger;
    match e
    case Open => Net(Connect(s), m.(tryToRecovery := true))
    case Close => Net(Disconnect(s), m.(tryToRecovery := false))
    case Send(data) => Net(SendData(s, data), m)
    case Posted => Net(SendDataInner(s), m)
    case Resolved(ok) => Report(n, OnResolve(s, ok))
    case TcpConnected(ok) => Report(n, OnConnect(s, ok))
    case Handshaken(ok) => Report(n, OnHandshake(s, ok))
    case Closed(ok) => Report(n, OnClose(s, ok))
    case Written(ok) => Report(n, OnWrite(s, ok))
    case ReadDone(result) => Report(n, OnRead(s, result))
    case TimerEnded =>
      var m' := m.(waits := m.waits - 1, ended := m.ended + 1);
      if m.state != MessengerClosed then Net(Connect(s), m'.(reconnects := m.reconnects + 1)) else Net(s, m')
  }

  predicate Possible(n: Net, events: seq<Event>)
    decreases |events|
  {
    events == [] || (Enabled(n, events[0]) && Possible(Apply(n, events[0]), events[1..]))
  }

  function Run(n: Net, events: seq<Event>): Net
    requires Possible(n, events)
    decreases |events|
  {
    if events == [] then n else Run(Apply(n, events[0]), events[1..])
  }

  // ---------------------------------------------------------------- the send pipeline

  /**
    Messages move from accepted through posted and the queue to written without loss, duplication or
    reordering; at most one write is in flight, and it carries the front of the queue; the sender
    stands still with a message in the queue exactly when a write has failed.
   */
  predicate Pipeline(s: Session) {
    var p, l := s.pending, s.log;
    l.executed == l.written + s.queue &&
    l.accepted == l.executed + p.posted &&
    |p.writing| <= 1 &&
    (p.writing != [] ==> s.queue != [] && p.writing[0] == s.queue[0]) &&
    (l.writeFailed <==> s.queue != [] && p.writing == [])
  }

  lemma SendDataInnerKeepsPipeline(s: Session)
    requires Pipeline(s) && s.pending.posted != []
    ensures Pipeline(SendDataInner(s))
  {
    var data, posted := s.pending.posted[0], s.pending.posted;
    assert posted == [data] + posted[1..];
    assert s.log.written + (s.queue + [data]) == s.log.executed + [data];
    assert (s.log.executed + [data]) + posted[1..] == s.log.executed + posted;
  }

  lemma OnWriteKeepsPipeline(s: Session, ok: bool)
    requires Pipeline(s) && s.pending.writing != []
    ensures Pipeline(OnWrite(s, ok).0)
  {
    var data := s.queue[0];
    assert s.queue == [data] + s.queue[1..];
    assert (s.log.written + [data]) + s.queue[1..] == s.log.written + s.queue;
  }

  lemma StepKeepsPipeline(n: Net, e: Event)
    requires Enabled(n, e) && Pipeline(n.session)
    ensures Pipeline(Apply(n, e).session)
  {
    match e
    case Posted => SendDataInnerKeepsPipeline(n.session);
    case Written(ok) => OnWriteKeepsPipeline(n.session, ok);
    case Send(data) =>
      var l, p := n.session.log, n.session.pending;
      assert (l.executed + p.posted) + [data] == l.executed + (p.posted + [data]);
    case _ =>
  }

  /** The pipeline holds in every state of every run. */
  lemma {:induction false} PipelineHolds(n: Net, events: seq<Event>)
    requires Possible(n, events) && Pipeline(n.session)
    ensures Pipeline(Run(n, events).session)
    decreases |events|
  {
    if events != [] {
      StepKeepsPipeline(n, events[0]);
      PipelineHolds(Apply(n, events[0]), events[1..]);
    }
  }

  /** The messages sent while the session was connecting or connected. */
  function Offered(n: Net, events: seq<Event>): seq<string>
    requires Possible(n, events)
    decreases |events|
  {
    if events == [] then [] else
      (if events[0].Send? && (n.session.state == Connecting || n.session.state == Connected)
       then [events[0].data] else [])
      + Offered(Apply(n, events[0]), events[1..])
  }

  /** Those are the accepted ones: no message is refused then, and none is taken at any other time. */
  lemma {:induction false} AcceptedAreOffered(n: Net, events: seq<Event>)
    requires Possible(n, events)
    ensures Run(n, events).session.log.accepted == n.session.log.accepted + Offered(n, events)
    decreases |events|
  {
    if events == [] {
      assert n.session.log.accepted + [] == n.session.log.accepted;
    } else {
      var n' := Apply(n, events[0]);
      AcceptedAreOffered(n', events[1..]);
      assert n'.session.log.accepted + Offered(n', events[1..]) == n.session.log.accepted + Offered(n, events);
    }
  }

  /** What callers see: the messages offered are those written, queued and posted, in this order. */
  lemma NothingLostOrReordered(events: seq<Event>)
    requires Possible(START, events)
    ensures var s := Run(START, events).session;
      Offered(START, events) == s.log.accepted == s.log.written + s.queue + s.pending.posted &&
      (s.pending.writing == [] || (s.queue != [] && s.pending.writing == [s.queue[0]]))
  {
    PipelineHolds(START, events);
    AcceptedAreOffered(START, events);
    assert [] + Offered(START, events) == Offered(START, events);
  }

  lemma StepKeepsStall(n: Net, e: Event)
    requires Enabled(n, e) && Pipeline(n.session) && n.session.log.writeFailed
    ensures var s := Apply(n, e).session;
      s.log.writeFailed && s.log.written == n.session.log.written && n.session.queue <= s.queue
  {
  }

  /** Once a write has failed nothing is ever written again, whatever happens, reconnecting included. */
  lemma {:induction false} FailedWriteStallsForever(n: Net, events: seq<Event>)
    requires Possible(n, events) && Pipeline(n.session) && n.session.log.writeFailed
    ensures var s := Run(n, events).session;
      s.log.writeFailed && s.log.written == n.session.log.written && n.session.queue <= s.queue && s.queue != []
    decreases |events|
  {
    if events != [] {
      StepKeepsPipeline(n, events[0]);
      StepKeepsStall(n, events[0]);
      FailedWriteStallsForever(Apply(n, events[0]), events[1..]);
    }
  }

  /** Steps that move messages on. */
  predicate Drains(e: Event) {
    e == Posted || e == Written(true)
  }

  function Backlog(s: Session): nat {
    2 * |s.pending.posted| + |s.queue|
  }

  /** While no write has failed, a backlog means that a draining step can run, and each takes one off it. */
  lemma DrainStep(n: Net, e: Event)
    requires Pipeline(n.session) && !n.session.log.writeFailed
    ensures Backlog(n.session) > 0 <==> Enabled(n, Posted) || Enabled(n, Written(true))
    ensures Enabled(n, e) && Drains(e) ==>
      Backlog(Apply(n, e).session) == Backlog(n.session) - 1 && !Apply(n, e).session.log.writeFailed
      && Apply(n, e).session.log.accepted == n.session.log.accepted
  {
  }

  function Writes(events: seq<Event>): nat {
    if events == [] then 0 else (if events[0] == Written(true) then 1 else 0) + Writes(events[1..])
  }

  function Drainings(events: seq<Event>): nat {
    if events == [] then 0 else (if Drains(events[0]) then 1 else 0) + Drainings(events[1..])
  }

  lemma StepOfLog(n: Net, e: Event)
    requires Enabled(n, e)
    ensures var l, l' := n.session.log, Apply(n, e).session.log;
      l.accepted <= l'.accepted && |l'.written| == |l.written| + (if e == Written(true) then 1 else 0) &&
      (l.writeFailed ==> l'.writeFailed)
  {
  }

  /** Over any run: accepted messages stay accepted, and every write that succeeds writes one message. */
  lemma {:induction false} LogOverRun(n: Net, events: seq<Event>)
    requires Possible(n, events)
    ensures var l, l' := n.session.log, Run(n, events).session.log;
      l.accepted <= l'.accepted && |l'.written| == |l.written| + Writes(events) &&
      (l.writeFailed ==> l'.writeFailed)
    decreases |events|
  {
    if events != [] {
      StepOfLog(n, events[0]);
      LogOverRun(Apply(n, events[0]), events[1..]);
    }
  }

  /**
    Every accepted message is written in its turn: in any run, whatever else happens in it, the
    messages accepted before it have all been written, first and in order, exactly when it has at least
    as many successful writes as messages were waiting.
   */
  lemma AcceptedIsWritten(n: Net, events: seq<Event>)
    requires Possible(n, events) && Pipeline(n.session)
    ensures n.session.log.accepted <= Run(n, events).session.log.written
       <==> |n.session.log.accepted| <= |n.session.log.written| + Writes(events)
  {
    LogOverRun(n, events);
    PipelineHolds(n, events);
    var s := Run(n, events).session;
    Associate(s.log.written, s.queue, s.pending.posted);
    PrefixOfPrefix(n.session.log.accepted, s.log.written, s.queue + s.pending.posted);
  }

  /** In terms of runs: what was offered before is written after just as many messages as it has. */
  lemma OfferedIsWritten(before: seq<Event>, after: seq<Event>)
    requires Possible(START, before) && Possible(Run(START, before), after)
    ensures var n := Run(START, before);
      Offered(START, before) <= Run(n, after).session.log.written
      <==> |Offered(START, before)| <= Writes(before) + Writes(after)
  {
    var n := Run(START, before);
    NothingLostOrReordered(before);
    LogOverRun(START, before);
    PipelineHolds(START, before);
    AcceptedIsWritten(n, after);
  }

  lemma Associate(a: seq<string>, b: seq<string>, c: seq<string>)
    ensures a + b + c == a + (b + c)
  {
  }

  lemma PrefixOfPrefix(a: seq<string>, w: seq<string>, rest: seq<string>)
    requires a <= w + rest
    ensures a <= w <==> |a| <= |w|
  {
    assert |a| <= |w| ==> forall i :: 0 <= i < |a| ==> (w + rest)[i] == w[i];
  }

  lemma BacklogStep(n: Net, e: Event)
    requires Enabled(n, e) && Pipeline(n.session) && !Apply(n, e).session.log.writeFailed
    ensures (if Drains(e) then 1 else 0) + Backlog(Apply(n, e).session)
         == Backlog(n.session) + 2 * (|Apply(n, e).session.log.accepted| - |n.session.log.accepted|)
  {
  }

  /** In any run without a failed write, the draining steps are what the backlog and the new messages lost. */
  lemma {:induction false} BacklogOverRun(n: Net, events: seq<Event>)
    requires Possible(n, events) && Pipeline(n.session) && !Run(n, events).session.log.writeFailed
    ensures Drainings(events) + Backlog(Run(n, events).session)
         == Backlog(n.session) + 2 * (|Run(n, events).session.log.accepted| - |n.session.log.accepted|)
    decreases |events|
  {
    if events != [] {
      var n' := Apply(n, events[0]);
      StepKeepsPipeline(n, events[0]);
      LogOverRun(n', events[1..]);
      BacklogStep(n, events[0]);
      BacklogOverRun(n', events[1..]);
    }
  }

  /**
    No run without a failed write can drain more than the backlog it began with and two steps for each
    message it accepts; it has drained that much exactly when every accepted message has been written,
    in order, and until then a draining step can run.
   */
  lemma DrainingWritesEverything(n: Net, events: seq<Event>)
    requires Possible(n, events) && Pipeline(n.session) && !Run(n, events).session.log.writeFailed
    ensures var n' := Run(n, events);
      var budget := Backlog(n.session) + 2 * (|n'.session.log.accepted| - |n.session.log.accepted|);
      Drainings(events) <= budget &&
      (Drainings(events) == budget <==> n'.session.log.written == n'.session.log.accepted) &&
      (Drainings(events) < budget <==> Enabled(n', Posted) || Enabled(n', Written(true)))
  {
    var n' := Run(n, events);
    BacklogOverRun(n, events);
    PipelineHolds(n, events);
    DrainStep(n', Posted);
    var l, s := n'.session.log, n'.session;
    assert l.accepted == l.written + s.queue + s.pending.posted;
    assert |l.accepted| == |l.written| + |s.queue| + |s.pending.posted|;
  }

  // ---------------------------------------------------------------- session and messenger

  /** After every step the messenger shows the session's state, up to a connection attempt under way. */
  predicate Agree(n: Net) {
    var s, m := n.session.state, n.messenger.state;
    (m == MessengerOpened <==> s == Connected) &&
    (m == MessengerClosed ==> s == Disconnected || s == Connecting) &&
    (m == MessengerError ==> s == NetError || s == Connecting)
  }

  lemma StepKeepsAgree(n: Net, e: Event)
    requires Enabled(n, e) && Agree(n)
    ensures Agree(Apply(n, e))
  {
  }

  lemma {:induction false} AgreeHolds(n: Net, events: seq<Event>)
    requires Possible(n, events) && Agree(n)
    ensures Agree(Run(n, events))
    decreases |events|
  {
    if events != [] {
      StepKeepsAgree(n, events[0]);
      AgreeHolds(Apply(n, events[0]), events[1..]);
    }
  }

  /** The table of the session's states. */
  lemma SessionTransitions(n: Net, e: Event)
    requires Enabled(n, e) && Agree(n)
    ensures var s := n.session.state;
      Apply(n, e).session.state == match e
        case Open => if s == Disconnected || s == NetError then Connecting else s
        case TimerEnded => if s == NetError then Connecting else s
        case Resolved(ok) => if ok then s else NetError
        case TcpConnected(ok) => if ok then s else NetError
        case Handshaken(ok) => if ok then Connected else NetError
        case Closed(ok) => if ok then Disconnected else NetError
        case Written(ok) => if ok then s else NetError
        case ReadDone(result) => if result == Failed || result == RemoteClosed then NetError else s
        case _ => s
  {
  }

  /** And of the messenger's. */
  lemma MessengerTransitions(n: Net, e: Event)
    requires Enabled(n, e)
    ensures var m, m' := n.messenger, Apply(n, e).messenger;
      (m'.tryToRecovery <==> e == Open || (e != Close && m.tryToRecovery)) &&
      m'.state == match e
        case Resolved(ok) => if ok then m.state else MessengerError
        case TcpConnected(ok) => if ok then m.state else MessengerError
        case Handshaken(ok) => if ok then MessengerOpened else MessengerError
        case Closed(ok) => if ok then MessengerClosed else MessengerError
        case Written(ok) => if ok then m.state else MessengerError
        case ReadDone(result) => if result == Failed || result == RemoteClosed then MessengerError else m.state
        case _ => m.state
  {
  }

  // ---------------------------------------------------------------- operations

  function Count(events: seq<Event>, e: Event): nat {
    if events == [] then 0 else (if events[0] == e then 1 else 0) + Count(events[1..], e)
  }

  /** Calls of Open and ended waits that find the session disconnected or in error, and calls of Close that do not. */
  function Attempts(n: Net, events: seq<Event>): nat
    requires Possible(n, events)
    decreases |events|
  {
    if events == [] then 0 else
      var s, e := n.session.state, events[0];
      (if (e == Open && (s == Disconnected || s == NetError)) || (e == TimerEnded && s == NetError) then 1 else 0)
      + Attempts(Apply(n, e), events[1..])
  }

  function Closings(n: Net, events: seq<Event>): nat
    requires Possible(n, events)
    decreases |events|
  {
    if events == [] then 0 else
      (if events[0] == Close && n.session.state != Disconnected then 1 else 0)
      + Closings(Apply(n, events[0]), events[1..])
  }

  /** Operations of each kind, those under way and those ended since. */
  datatype Kinds = Kinds(resolved: int, connected: int, shaken: int, stopped: int, closed: int)

  function Ended(events: seq<Event>): Kinds {
    Kinds(Count(events, Resolved(true)) + Count(events, Resolved(false)),
          Count(events, TcpConnected(true)) + Count(events, TcpConnected(false)),
          Count(events, Handshaken(true)) + Count(events, Handshaken(false)),
          Count(events, ReadDone(Canceled)) + Count(events, ReadDone(RemoteClosed)) + Count(events, ReadDone(Failed)),
          Count(events, Closed(true)) + Count(events, Closed(false)))
  }

  lemma OperationsStep(n: Net, e: Event)
    requires Enabled(n, e) && Agree(n)
    ensures var p, p' := n.session.pending, Apply(n, e).session.pending;
      var s := n.session.state;
      p'.resolving - p.resolving == (if (e == Open && (s == Disconnected || s == NetError))
                                       || (e == TimerEnded && s == NetError) then 1 else 0)
                                    - (if e.Resolved? then 1 else 0) &&
      Apply(n, e).session.log.attempts - n.session.log.attempts
        == (if (e == Open && (s == Disconnected || s == NetError)) || (e == TimerEnded && s == NetError)
            then 1 else 0) &&
      p'.connecting - p.connecting == (if e == Resolved(true) then 1 else 0) - (if e.TcpConnected? then 1 else 0) &&
      p'.handshaking - p.handshaking == (if e == TcpConnected(true) then 1 else 0) - (if e.Handshaken? then 1 else 0) &&
      p'.reading - p.reading == (if e == Handshaken(true) then 1 else 0)
                                - (if e.ReadDone? && e.result != Got then 1 else 0) &&
      p'.closing - p.closing == (if e == Close && s != Disconnected then 1 else 0) - (if e.Closed? then 1 else 0)
  {
  }

  lemma CountStep(events: seq<Event>, x: Event)
    requires events != []
    ensures Count(events, x) == (if events[0] == x then 1 else 0) + Count(events[1..], x)
  {
  }

  lemma EndedStep(events: seq<Event>)
    requires events != []
    ensures var e, a, r := events[0], Ended(events), Ended(events[1..]);
      a.resolved == r.resolved + (if e.Resolved? then 1 else 0) &&
      a.connected == r.connected + (if e.TcpConnected? then 1 else 0) &&
      a.shaken == r.shaken + (if e.Handshaken? then 1 else 0) &&
      a.stopped == r.stopped + (if e.ReadDone? && e.result != Got then 1 else 0) &&
      a.closed == r.closed + (if e.Closed? then 1 else 0)
  {
    CountStep(events, Resolved(true));
    CountStep(events, Resolved(false));
    CountStep(events, TcpConnected(true));
    CountStep(events, TcpConnected(false));
    CountStep(events, Handshaken(true));
    CountStep(events, Handshaken(false));
    CountStep(events, ReadDone(Canceled));
    CountStep(events, ReadDone(RemoteClosed));
    CountStep(events, ReadDone(Failed));
    CountStep(events, Closed(true));
    CountStep(events, Closed(false));
  }

  /**
    Every stage of connecting is started by the one before: over any run each kind of operation is under
    way as often as it was started and has not ended. A received message keeps its read going.
   */
  lemma {:induction false} OperationsAreAccounted(n: Net, events: seq<Event>)
    requires Possible(n, events) && Agree(n)
    ensures var p, p', ended := n.session.pending, Run(n, events).session.pending, Ended(events);
      Run(n, events).session.log.attempts == n.session.log.attempts + Attempts(n, events) &&
      p'.resolving + ended.resolved == p.resolving + Attempts(n, events) &&
      p'.connecting + ended.connected == p.connecting + Count(events, Resolved(true)) &&
      p'.handshaking + ended.shaken == p.handshaking + Count(events, TcpConnected(true)) &&
      p'.reading + ended.stopped == p.reading + Count(events, Handshaken(true)) &&
      p'.closing + ended.closed == p.closing + Closings(n, events)
    decreases |events|
  {
    if events != [] {
      var e, rest := events[0], events[1..];
      EndedStep(events);
      CountStep(events, Resolved(true));
      CountStep(events, TcpConnected(true));
      CountStep(events, Handshaken(true));
      OperationsStep(n, e);
      StepKeepsAgree(n, e);
      OperationsAreAccounted(Apply(n, e), rest);
    }
  }

  // ---------------------------------------------------------------- recovery

  /** The error a step reports to the messenger, if any. */
  function Reported(n: Net, e: Event): Callback
    requires Enabled(n, e)
  {
    match e
    case Resolved(ok) => OnResolve(n.session, ok).1
    case TcpConnected(ok) => OnConnect(n.session, ok).1
    case Handshaken(ok) => OnHandshake(n.session, ok).1
    case Closed(ok) => OnClose(n.session, ok).1
    case Written(ok) => OnWrite(n.session, ok).1
    case ReadDone(result) => OnRead(n.session, result).1
    case _ => NoCallback
  }

  /** Exactly what each handler reports. */
  lemma ReportsExactly(n: Net, e: Event)
    requires Enabled(n, e)
    ensures Reported(n, e) == match e
      case Resolved(ok) => if ok then NoCallback else OnError(ConnectError)
      case TcpConnected(ok) => if ok then NoCallback else OnError(ConnectError)
      case Handshaken(ok) => if ok then OnConnected else OnError(ConnectError)
      case Closed(ok) => if ok then OnClosed else OnError(CloseError)
      case Written(ok) => if ok then NoCallback else OnError(SendError)
      case ReadDone(result) =>
        if result == Got then OnReceived
        else if result == Failed then OnError(ReceiveError)
        else if result == RemoteClosed then OnError(DisconnectError)
        else NoCallback
      case _ => NoCallback
  {
  }

  /** A failure to connect or receive, or a close by the other side, while recovery is on. */
  predicate IsRecoverable(n: Net, e: Event)
    requires Enabled(n, e)
  {
    n.messenger.tryToRecovery &&
    (e == Resolved(false) || e == TcpConnected(false) || e == Handshaken(false) ||
     e == ReadDone(Failed) || e == ReadDone(RemoteClosed))
  }

  function RecoverableErrors(n: Net, events: seq<Event>): nat
    requires Possible(n, events)
    decreases |events|
  {
    if events == [] then 0
    else (if IsRecoverable(n, events[0]) then 1 else 0) + RecoverableErrors(Apply(n, events[0]), events[1..])
  }

  /** Ended waits whose handler calls Connect: those that do not find the messenger closed. */
  function TimerConnects(n: Net, events: seq<Event>): nat
    requires Possible(n, events)
    decreases |events|
  {
    if events == [] then 0
    else (if events[0] == TimerEnded && n.messenger.state != MessengerClosed then 1 else 0)
         + TimerConnects(Apply(n, events[0]), events[1..])
  }

  lemma RecoveryStep(n: Net, e: Event)
    requires Enabled(n, e)
    ensures var m, m' := n.messenger, Apply(n, e).messenger;
      m'.armed == m.armed + (if IsRecoverable(n, e) then 1 else 0) &&
      m'.ended == m.ended + (if e == TimerEnded then 1 else 0) &&
      m'.waits - m.waits == (if IsRecoverable(n, e) then 1 else 0) - (if e == TimerEnded then 1 else 0) &&
      m'.reconnects == m.reconnects + (if e == TimerEnded && m.state != MessengerClosed then 1 else 0)
  {
  }

  /** Every wait is armed by one recoverable error and ends once; Connect calls need an ended wait. */
  lemma {:induction false} RecoveryIsAccounted(n: Net, events: seq<Event>)
    requires Possible(n, events)
    ensures var m, m' := n.messenger, Run(n, events).messenger;
      m'.armed == m.armed + RecoverableErrors(n, events) &&
      m'.waits + Count(events, TimerEnded) == m.waits + RecoverableErrors(n, events) &&
      m'.ended == m.ended + Count(events, TimerEnded) &&
      m'.reconnects == m.reconnects + TimerConnects(n, events) &&
      TimerConnects(n, events) <= Count(events, TimerEnded)
    decreases |events|
  {
    if events != [] {
      RecoveryStep(n, events[0]);
      CountStep(events, TimerEnded);
      RecoveryIsAccounted(Apply(n, events[0]), events[1..]);
    }
  }

  lemma TimerConnectsAreBounded(events: seq<Event>)
    requires Possible(START, events)
    ensures TimerConnects(START, events) <= RecoverableErrors(START, events)
    ensures Run(START, events).messenger.reconnects == TimerConnects(START, events)
  {
    RecoveryIsAccounted(START, events);
  }

  /** After Close, with no later Open, the timer connects at most once for each wait pending at Close. */
  lemma {:induction false} ClosedConnectsAreBounded(n: Net, events: seq<Event>)
    requires Possible(n, events) && !n.messenger.tryToRecovery
    requires forall i :: 0 <= i < |events| ==> events[i] != Open
    ensures var m, m' := n.messenger, Run(n, events).messenger;
      m'.waits <= m.waits && m'.reconnects - m.reconnects <= m.waits - m'.waits
      && Run(n, events).session.log.attempts - n.session.log.attempts <= m.waits - m'.waits
    decreases |events|
  {
    if events != [] {
      var n' := Apply(n, events[0]);
      assert events[0] != Open;
      assert forall i :: 0 <= i < |events[1..]| ==> events[1..][i] == events[i + 1];
      ClosedConnectsAreBounded(n', events[1..]);
    }
  }

  /** An ended wait starts a connection attempt exactly when the session is in error. */
  lemma TimerReconnectsExactly(n: Net)
    requires Enabled(n, TimerEnded) && Agree(n)
    ensures Apply(n, TimerEnded).session.log.attempts == n.session.log.attempts + 1 <==> n.session.state == NetError
    ensures Apply(n, TimerEnded).session.state == Connecting
       <==> n.session.state == NetError || n.session.state == Connecting
  {
  }

  ghost predicate NoOpen(events: seq<Event>) {
    forall i :: 0 <= i < |events| ==> events[i] != Open
  }

  /** Some run attempts a connection although nobody opens the messenger again. */
  ghost predicate MayReconnect(n: Net) {
    exists events :: Possible(n, events) && NoOpen(events)
      && Run(n, events).session.log.attempts > n.session.log.attempts
  }

  /** Disconnected, with no operation under way and no posted message that would start one. */
  predicate Idle(s: Session) {
    var p := s.pending;
    s.state == Disconnected && p.resolving == p.connecting == p.handshaking == p.reading == p.closing == 0 &&
    p.writing == [] && (p.posted == [] || s.queue != [])
  }

  lemma IdleStep(n: Net, e: Event)
    requires Enabled(n, e) && e != Open && Agree(n) && Idle(n.session)
    ensures Idle(Apply(n, e).session) && Apply(n, e).session.log.attempts == n.session.log.attempts
  {
  }

  lemma {:induction false} IdleStays(n: Net, events: seq<Event>)
    requires Possible(n, events) && NoOpen(events) && Agree(n) && Idle(n.session)
    ensures Run(n, events).session.log.attempts == n.session.log.attempts
    decreases |events|
  {
    if events != [] {
      assert events[0] != Open && forall i :: 0 <= i < |events[1..]| ==> events[1..][i] == events[i + 1];
      IdleStep(n, events[0]);
      StepKeepsAgree(n, events[0]);
      IdleStays(Apply(n, events[0]), events[1..]);
    }
  }

  lemma TimerReconnects(n: Net)
    requires n.messenger.waits > 0 && Agree(n) && n.session.state == NetError
    ensures MayReconnect(n)
  {
    assert Possible(Apply(n, TimerEnded), []);
    assert [TimerEnded][1..] == [];
    assert Possible(n, [TimerEnded]) && Run(n, [TimerEnded]) == Apply(n, TimerEnded);
    assert NoOpen([TimerEnded]);
  }

  lemma StepThenReconnect(n: Net, e: Event)
    requires Enabled(n, e) && e != Open && MayReconnect(Apply(n, e))
    requires Apply(n, e).session.log.attempts == n.session.log.attempts
    ensures MayReconnect(n)
  {
    var n' := Apply(n, e);
    var rest :| Possible(n', rest) && NoOpen(rest) && Run(n', rest).session.log.attempts > n'.session.log.attempts;
    var events := [e] + rest;
    assert events[0] == e && events[1..] == rest;
    assert Possible(n, events) && Run(n, events) == Run(n', rest) && NoOpen(events);
  }

  /** An operation under way may fail, and then a wait reconnects. */
  lemma FailThenReconnect(n: Net, e: Event)
    requires Enabled(n, e) && Agree(n) && n.messenger.waits > 0
    requires e == Resolved(false) || e == TcpConnected(false) || e == Handshaken(false) || e == Closed(false)
          || e == Written(false) || e == ReadDone(Failed)
    ensures MayReconnect(n)
  {
    StepKeepsAgree(n, e);
    TimerReconnects(Apply(n, e));
    StepThenReconnect(n, e);
  }

  /**
    Close does not stop what is under way: without another Open the session can still connect again
    exactly when a wait is pending at Close and the session is not idle then.
   */
  lemma ReconnectsAfterCloseExactly(before: Net)
    requires Agree(before) && Pipeline(before.session)
    ensures var n := Apply(before, Close);
      MayReconnect(n) <==> before.messenger.waits > 0 && !Idle(n.session)
  {
    var n := Apply(before, Close);
    var p := n.session.pending;
    StepKeepsAgree(before, Close);
    if n.messenger.waits == 0 || Idle(n.session) {
      forall events | Possible(n, events) && NoOpen(events)
        ensures Run(n, events).session.log.attempts <= n.session.log.attempts
      {
        NoReconnect(n, events);
      }
    } else if n.session.state == NetError {
      TimerReconnects(n);
    } else if p.closing > 0 {
      FailThenReconnect(n, Closed(false));
    } else if p.resolving > 0 {
      FailThenReconnect(n, Resolved(false));
    } else if p.connecting > 0 {
      FailThenReconnect(n, TcpConnected(false));
    } else if p.handshaking > 0 {
      FailThenReconnect(n, Handshaken(false));
    } else if p.reading > 0 {
      FailThenReconnect(n, ReadDone(Failed));
    } else if p.writing != [] {
      FailThenReconnect(n, Written(false));
    } else {
      StepKeepsAgree(n, Posted);
      FailThenReconnect(Apply(n, Posted), Written(false));
      StepThenReconnect(n, Posted);
    }
  }

  lemma NoReconnect(n: Net, events: seq<Event>)
    requires Possible(n, events) && NoOpen(events) && Agree(n) && !n.messenger.tryToRecovery
    requires n.messenger.waits == 0 || Idle(n.session)
    ensures Run(n, events).session.log.attempts <= n.session.log.attempts
  {
    if Idle(n.session) {
      IdleStays(n, events);
    } else {
      ClosedConnectsAreBounded(n, events);
    }
  }

  /** A run in which it does: the handler of the pending wait ignores the cancellation and connects. */
  lemma CloseCanReconnect()
    ensures var events := [Open, Resolved(false), Close, TimerEnded];
      Possible(START, events) && Run(START, events).session.state == Connecting
      && !Run(START, events).messenger.tryToRecovery && Run(START, events).session.log.attempts == 2
  {
    var n1 := Apply(START, Open);
    var n2 := Apply(n1, Resolved(false));
    var n3 := Apply(n2, Close);
    var n4 := Apply(n3, TimerEnded);
    var e4, e3, e2 := [TimerEnded], [Close, TimerEnded], [Resolved(false), Close, TimerEnded];
    var events := [Open, Resolved(false), Close, TimerEnded];
    assert events[1..] == e2 && e2[1..] == e3 && e3[1..] == e4 && e4[1..] == [];
    assert Possible(n4, []) && Possible(n3, e4) && Possible(n2, e3) && Possible(n1, e2);
    assert Run(n3, e4) == n4 && Run(n2, e3) == n4 && Run(n1, e2) == n4;
  }
}
