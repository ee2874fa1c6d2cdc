/** One terminal tab, `frontend/src/lib/terminalSession.ts`: keystrokes queued until the socket
    opens, a close that must reach the backend, a resync that attaches again, a dispose that
    only detaches. The browser is the caller: every event it can deliver is a method. */
module TerminalSession {
  import opened Sequences

  datatype ReadyState = Connecting | Open | Closing | Lost

  /** What `onopen` is set to. */
  datatype OpenHandler = Unset | Flush | DeliverClose

  datatype Outbound = Input(data: string) | Resize(cols: nat, rows: nat) | Close

  datatype Inbound = Output(bytes: seq<Byte>) | ExitFrame(code: int) | ResyncFrame | Undecodable

  datatype Status = Running | Exited(code: int) | Failed(message: string)

  /** A key press or paste, or the autorun line. */
  datatype Typed = Typed(data: string, auto: bool)

  /** The data frames, in order. */
  function Inputs(log: seq<Outbound>): seq<string> {
    if log == [] then []
    else Inputs(log[..|log| - 1]) + (if log[|log| - 1].Input? then [log[|log| - 1].data] else [])
  }

  lemma InputsSnoc(log: seq<Outbound>, frame: Outbound)
    ensures Inputs(log + [frame]) == Inputs(log) + (if frame.Input? then [frame.data] else [])
  {
    assert (log + [frame])[..|log|] == log;
  }

  /** A frame for each of these. */
  function InputFrames(queue: seq<string>): seq<Outbound> {
    if queue == [] then [] else InputFrames(queue[..|queue| - 1]) + [Input(queue[|queue| - 1])]
  }

  lemma InputFramesSnoc(queue: seq<string>, i: nat)
    requires i < |queue|
    ensures InputFrames(queue[..i + 1]) == InputFrames(queue[..i]) + [Input(queue[i])]
  {
    assert queue[..i + 1][..i] == queue[..i];
  }

  lemma {:induction false} InputsConcat(a: seq<Outbound>, b: seq<Outbound>)
    ensures Inputs(a + b) == Inputs(a) + Inputs(b)
  {
    if b == [] {
      assert a + b == a;
    } else {
      assert (a + b)[..|a + b| - 1] == a + b[..|b| - 1];
      InputsConcat(a, b[..|b| - 1]);
    }
  }

  lemma {:induction false} InputsOfFrames(queue: seq<string>)
    ensures Inputs(InputFrames(queue)) == queue
  {
    if queue != [] {
      InputsOfFrames(queue[..|queue| - 1]);
      InputsSnoc(InputFrames(queue[..|queue| - 1]), Input(queue[|queue| - 1]));
    }
  }

  function SizeAndInput(cols: nat, rows: nat, queue: seq<string>): seq<Outbound> {
    [Resize(cols, rows)] + InputFrames(queue)
  }

  /** What goes out on a socket as it opens. */
  function Flushed(cols: nat, rows: nat, queue: seq<string>, close: bool): seq<Outbound> {
    if close then SizeAndInput(cols, rows, queue) + [Close] else SizeAndInput(cols, rows, queue)
  }

  /** A socket that opens is told to close exactly when that is owed. */
  lemma ClosesWhenOwed(cols: nat, rows: nat, queue: seq<string>, close: bool)
    ensures Close in Flushed(cols, rows, queue, close) <==> close
  {
    NoCloseInInput(queue);
    var f := Flushed(cols, rows, queue, close);
    if close { assert f[|f| - 1] == Close; }
  }

  lemma {:induction false} NoCloseInInput(queue: seq<string>)
    ensures Close !in InputFrames(queue)
  {
    if queue != [] { NoCloseInInput(queue[..|queue| - 1]); }
  }

  lemma CloseGoesLast(log: seq<Outbound>, cols: nat, rows: nat, queue: seq<string>)
    ensures var sent := log + Flushed(cols, rows, queue, true); sent != [] && sent[|sent| - 1] == Close && Close in sent
  {
    var sent := log + Flushed(cols, rows, queue, true);
    assert sent[|sent| - 1] == Close;
  }

  /** Sending what is queued leaves everything typed sent. */
  lemma FlushKeepsInput(log: seq<Outbound>, pending: seq<string>, typed: seq<Typed>, autorun: Option<string>)
    requires InputInOrder(log, pending, typed, autorun)
    ensures InputInOrder(log + InputFrames(pending), [], typed, autorun)
  {
    InputsConcat(log, InputFrames(pending));
    InputsOfFrames(pending);
  }

  function DataOf(typed: seq<Typed>): seq<string> {
    if typed == [] then [] else DataOf(typed[..|typed| - 1]) + [typed[|typed| - 1].data]
  }

  function Autoruns(typed: seq<Typed>): nat {
    if typed == [] then 0 else Autoruns(typed[..|typed| - 1]) + (if typed[|typed| - 1].auto then 1 else 0)
  }

  lemma TypedSnoc(typed: seq<Typed>, t: Typed)
    ensures DataOf(typed + [t]) == DataOf(typed) + [t.data]
    ensures Autoruns(typed + [t]) == Autoruns(typed) + (if t.auto then 1 else 0)
  {
    assert (typed + [t])[..|typed|] == typed;
  }

  /** What was sent, then what is queued, is everything typed, the autorun line at most once. */
  ghost predicate InputInOrder(log: seq<Outbound>, pending: seq<string>, typed: seq<Typed>, autorun: Option<string>) {
    && Inputs(log) + pending == DataOf(typed)
    && Autoruns(typed) <= 1 && (autorun.Some? ==> Autoruns(typed) == 0)
  }

  /** A frame that types nothing changes nothing about that. */
  lemma FrameKeepsInput(log: seq<Outbound>, pending: seq<string>, typed: seq<Typed>, autorun: Option<string>, frame: Outbound)
    requires InputInOrder(log, pending, typed, autorun) && !frame.Input?
    ensures InputInOrder(log + [frame], pending, typed, autorun)
  {
    InputsSnoc(log, frame);
  }

  lemma QueueKeepsInput(log: seq<Outbound>, pending: seq<string>, typed: seq<Typed>, autorun: Option<string>, t: Typed)
    requires InputInOrder(log, pending, typed, autorun) && (t.auto ==> autorun.Some?)
    ensures InputInOrder(log, pending + [t.data], typed + [t], if t.auto then None else autorun)
  {
    TypedSnoc(typed, t);
    Assoc(Inputs(log), pending, [t.data]);
  }

  lemma SendKeepsInput(log: seq<Outbound>, typed: seq<Typed>, autorun: Option<string>, t: Typed)
    requires InputInOrder(log, [], typed, autorun) && (t.auto ==> autorun.Some?)
    ensures InputInOrder(log + [Input(t.data)], [], typed + [t], if t.auto then None else autorun)
  {
    TypedSnoc(typed, t);
    InputsSnoc(log, Input(t.data));
  }

  /** Nothing after an exit is a failure, and nothing ends before there is a session. */
  ghost predicate ReportsInOrder(reports: seq<Status>, ended: bool, sessionID: Option<string>) {
    && (sessionID.None? ==> !ended)
    && (forall i | 0 <= i < |reports| && reports[i].Exited? :: ended)
    && (forall i, j | 0 <= i < j < |reports| && reports[i].Exited? :: !reports[j].Failed?)
  }

  /** The browser's socket, as far as a session uses it. */
  class Socket {
    var state: ReadyState
    var onopen: OpenHandler
    var listening: bool              // onmessage, onclose and onerror are set
    var frames: seq<Outbound>        // what was sent on it

    constructor ()
      ensures state == Connecting && onopen == Unset && !listening && frames == []
    {
      state, onopen, listening, frames := Connecting, Unset, false, [];
    }
  }

  class Session {
    var socket: Socket?
    var sessionID: Option<string>
    var pending: seq<string>
    var closeRequested: bool
    var ended: bool
    var disposed: bool
    var autorun: Option<string>
    var cols: nat
    var rows: nat
    var screen: seq<seq<Byte>>       // what the terminal has drawn since its last reset
    var reports: seq<Status>         // what onStatus has been told

    ghost var sockets: set<Socket>   // every socket ever connected
    ghost var typed: seq<Typed>      // everything typed, in order
    ghost var log: seq<Outbound>     // everything sent, on any socket, in order
    ghost var abandoned: bool        // disposed on a live socket with no close requested

    /** The current socket, if there is one. */
    ghost function Current(): set<Socket>
      reads `socket
    {
      if socket == null then {} else {socket}
    }

    /** Which sockets can still do something, and what they would do. */
    ghost predicate SocketsInOrder()
      reads `socket, `sockets, `sessionID, `disposed, `closeRequested
      reads sockets`state, sockets`onopen, sockets`listening
    {
      && (socket != null ==> socket in sockets)
      && (sockets != {} ==> sessionID.Some?)
      && (!disposed && sockets != {} ==> socket != null && socket.state != Closing)
      && (forall s | s in sockets ::
            && (s.onopen == Flush && s.state == Connecting ==> s == socket)
            && (s.listening ==> s == socket && !disposed)
            && (s.state == Connecting ==> s.onopen != Unset)
            && (s.onopen == DeliverClose ==> closeRequested && disposed && s.state != Open)
            && (s.state == Open ==> s == socket))
    }

    /** A socket that a close can still go out on, or on which the connection was lost first. */
    ghost predicate Reachable()
      reads `sockets, sockets`state
    {
      exists s :: s in sockets && (s.state == Connecting || s.state == Lost)
    }

    /** Once there is a socket, a requested close has been sent, or waits on a socket that is
        still opening, or the connection was lost first. A close first asked for after the
        pane had already detached is the one exception. */
    ghost predicate CloseNotForgotten()
      reads `socket, `sockets, `disposed, `closeRequested, `abandoned, `log, sockets`state
    {
      && (disposed && sockets != {} && !abandoned ==> closeRequested)
      && (closeRequested && sockets != {} && !abandoned && Close !in log ==>
            (socket == null || socket !in sockets || socket.state != Open) && Reachable())
    }

    ghost predicate Valid()
      reads this, sockets
    {
      && SocketsInOrder() && CloseNotForgotten()
      && InputInOrder(log, pending, typed, autorun)
      && (socket != null && socket.state == Open ==> pending == [])
      && ReportsInOrder(reports, ended, sessionID)
    }

    constructor (autorun: Option<string>, cols: nat, rows: nat)
      ensures Valid() && socket == null && sockets == {} && typed == [] && log == [] && reports == [] && pending == [] && screen == []
      ensures !closeRequested && !disposed && !ended && sessionID.None?
      ensures this.autorun == autorun && this.cols == cols && this.rows == rows
    {
      socket, sessionID, pending := null, None, [];
      closeRequested, ended, disposed := false, false, false;
      this.autorun, this.cols, this.rows := autorun, cols, rows;
      screen, reports := [], [];
      sockets, typed, log, abandoned := {}, [], [], false;
    }

    // ------------------------------------------------------------ private parts

    /** Hands one frame to an open socket. */
    method Transmit(frame: Outbound)
      requires socket != null && socket.state == Open
      modifies Current()`frames, `log
      ensures socket.frames == old(socket.frames) + [frame] && log == old(log) + [frame]
      ensures Close in log <==> Close in old(log) || frame == Close
      ensures old(CloseNotForgotten()) ==> CloseNotForgotten()
    {
      socket.frames := socket.frames + [frame];
      log := log + [frame];
    }

    method Emit(data: string, ghost auto: bool, ghost unsent: Option<string>)
      requires InputInOrder(log, pending, typed, unsent) && (auto ==> unsent.Some?) && CloseNotForgotten()
      requires socket != null && socket.state == Open && pending == []
      modifies `log, `typed, Current()`frames
      ensures typed == old(typed) + [Typed(data, auto)]
      ensures InputInOrder(log, pending, typed, if auto then None else unsent) && CloseNotForgotten()
      ensures socket.frames == old(socket.frames) + [Input(data)] && log == old(log) + [Input(data)]
    {
      SendKeepsInput(log, typed, unsent, Typed(data, auto));
      Transmit(Input(data));
      typed := typed + [Typed(data, auto)];
    }

    method Park(data: string, ghost auto: bool, ghost unsent: Option<string>)
      requires InputInOrder(log, pending, typed, unsent) && (auto ==> unsent.Some?) && CloseNotForgotten()
      modifies `pending, `typed
      ensures typed == old(typed) + [Typed(data, auto)]
      ensures InputInOrder(log, pending, typed, if auto then None else unsent) && CloseNotForgotten()
      ensures pending == old(pending) + [data]
    {
      QueueKeepsInput(log, pending, typed, unsent, Typed(data, auto));
      pending := pending + [data];
      typed := typed + [Typed(data, auto)];
    }

    /** `send`: input goes out on an open socket and is queued otherwise. */
    method Send(data: string, ghost auto: bool, ghost unsent: Option<string>)
      requires InputInOrder(log, pending, typed, unsent) && (auto ==> unsent.Some?) && CloseNotForgotten()
      requires socket != null && socket.state == Open ==> pending == []
      modifies `pending, `log, `typed, Current()`frames
      ensures typed == old(typed) + [Typed(data, auto)]
      ensures InputInOrder(log, pending, typed, if auto then None else unsent) && CloseNotForgotten()
      ensures socket != null && socket.state == Open ==> pending == [] && log == old(log) + [Input(data)]
      ensures socket != null && socket.state == Open ==> socket.frames == old(socket.frames) + [Input(data)]
      ensures socket == null || socket.state != Open ==> pending == old(pending) + [data] && log == old(log)
    {
      if socket == null || socket.state != Open {
        Park(data, auto, unsent);
      } else {
        Emit(data, auto, unsent);
      }
    }

    /** `control`: a control frame is dropped when there is no open socket. */
    method Control(frame: Outbound)
      requires !frame.Input? && InputInOrder(log, pending, typed, autorun)
      modifies `log, Current()`frames
      ensures log == if socket != null && socket.state == Open then old(log) + [frame] else old(log)
      ensures InputInOrder(log, pending, typed, autorun)
      ensures socket != null && socket.state == Open ==> socket.frames == old(socket.frames) + [frame]
      ensures Close in log <==> Close in old(log) || (frame == Close && socket != null && socket.state == Open)
      ensures old(CloseNotForgotten()) ==> CloseNotForgotten()
    {
      if socket != null && socket.state == Open {
        FrameKeepsInput(log, pending, typed, autorun, frame);
        Transmit(frame);
      }
    }

    method Report(status: Status)
      modifies `reports
      ensures reports == if disposed then old(reports) else old(reports) + [status]
    {
      if !disposed { reports := reports + [status]; }
    }

    /** `attach`: connects a socket and wires its handlers. */
    method Attach()
      modifies `socket, `sockets
      ensures socket != null && fresh(socket) && sockets == old(sockets) + {socket}
      ensures socket.state == Connecting && socket.onopen == Flush && socket.listening && socket.frames == []
    {
      var s := new Socket();
      s.onopen, s.listening := Flush, true;
      socket := s;
      sockets := sockets + {s};
    }

    /** `detach`: drops the current socket without disturbing the session behind it. */
    method Detach()
      modifies `socket, Current()`state, Current()`onopen, Current()`listening
      ensures socket == null
      ensures var was := old(socket); was != null ==>
                was.state == (if old(was.state) == Lost then Lost else Closing)
                && was.onopen == Unset && !was.listening && was.frames == old(was.frames)
    {
      if socket == null { return; }
      var was := socket;
      socket := null;
      was.onopen, was.listening := Unset, false;
      if was.state != Lost { was.state := Closing; }
    }

    /** `deliverPendingClose`: arms the socket to deliver a close nobody could send yet. */
    method DeliverPendingClose() returns (armed: bool)
      modifies Current()`listening, Current()`onopen
      ensures armed <==> socket != null && closeRequested && socket.state != Open
      ensures socket != null ==> socket.state == old(socket.state) && socket.frames == old(socket.frames)
      ensures socket != null ==> socket.onopen == (if armed then DeliverClose else old(socket.onopen))
      ensures socket != null ==> socket.listening == (!armed && old(socket.listening))
    {
      if socket == null || !closeRequested || socket.state == Open { return false; }
      socket.listening := false;
      socket.onopen := DeliverClose;
      return true;
    }

    /** The loop of `flush`. */
    method SendAll(queue: seq<string>)
      requires socket != null && socket.state == Open
      modifies `log, Current()`frames
      ensures socket.frames == old(socket.frames) + InputFrames(queue) && log == old(log) + InputFrames(queue)
    {
      for i := 0 to |queue|
        invariant socket.frames == old(socket.frames) + InputFrames(queue[..i])
        invariant log == old(log) + InputFrames(queue[..i])
      {
        InputFramesSnoc(queue, i);
        Transmit(Input(queue[i]));
      }
      assert queue[..|queue|] == queue;
    }

    /** The first half of `flush`: the size, then everything typed while the socket came up. */
    method FlushInput(cols: nat, rows: nat)
      requires socket != null && socket.state == Open
      requires InputInOrder(log, pending, typed, autorun)
      modifies `cols, `rows, `pending, `log, Current()`frames
      ensures InputInOrder(log, pending, typed, autorun) && pending == [] && this.cols == cols && this.rows == rows
      ensures socket.frames == old(socket.frames) + SizeAndInput(cols, rows, old(pending))
      ensures log == old(log) + SizeAndInput(cols, rows, old(pending))
    {
      this.cols, this.rows := cols, rows;
      Control(Resize(cols, rows));
      var queue := pending;
      FlushKeepsInput(log, queue, typed, autorun);
      pending := [];
      SendAll(queue);
      Assoc(old(socket.frames), [Resize(cols, rows)], InputFrames(queue));
      Assoc(old(log), [Resize(cols, rows)], InputFrames(queue));
    }

    /** `flush`: the size, everything typed while the socket came up, in order, and a requested close last. */
    method FlushPending(cols: nat, rows: nat)
      requires socket != null && socket.state == Open
      requires InputInOrder(log, pending, typed, autorun)
      modifies `cols, `rows, `pending, `log, Current()`frames
      ensures InputInOrder(log, pending, typed, autorun) && pending == [] && this.cols == cols && this.rows == rows
      ensures socket.frames == old(socket.frames) + Flushed(cols, rows, old(pending), closeRequested)
      ensures log == old(log) + Flushed(cols, rows, old(pending), closeRequested)
    {
      ghost var flushed := SizeAndInput(cols, rows, pending);
      FlushInput(cols, rows);
      Assoc(old(socket.frames), flushed, [Close]);
      Assoc(old(log), flushed, [Close]);
      if closeRequested { Control(Close); }
    }

    // ------------------------------------------------------------ what the tab does

    /** The backend answered `start` with a session id. */
    method Started(id: string)
      requires Valid() && sessionID.None? && sockets == {}
      modifies `sessionID, `closeRequested, `socket, `sockets, `reports
      ensures Valid() && sessionID == Some(id) && socket != null && fresh(socket) && sockets == {socket}
      ensures socket.state == Connecting && socket.frames == []
      ensures socket.onopen == (if disposed then DeliverClose else Flush) && socket.listening == !disposed
      ensures closeRequested == (old(closeRequested) || disposed)
      ensures reports == if disposed then old(reports) else old(reports) + [Running]
    {
      sessionID := Some(id);
      if disposed {
        closeRequested := true;
        Attach();
        var armed := DeliverPendingClose();
      } else {
        Attach();
        Report(Running);
      }
    }

    /** The backend refused to open a session. */
    method StartFailed(message: string)
      requires Valid() && sessionID.None?
      modifies `reports
      ensures Valid()
      ensures reports == if disposed then old(reports) else old(reports) + [Failed(message)]
    {
      Report(Failed(message));
    }

    /** The terminal produced input. */
    method Type(data: string)
      requires Valid()
      modifies `pending, `log, `typed, Current()`frames
      ensures Valid() && typed == old(typed) + [Typed(data, false)]
      ensures if socket != null && socket.state == Open
              then pending == [] && socket.frames == old(socket.frames) + [Input(data)]
              else pending == old(pending) + [data] && log == old(log)
    {
      Send(data, false, autorun);
    }

    /** The pane changed size. */
    method Resized(cols: nat, rows: nat)
      requires Valid()
      modifies `cols, `rows, `log, Current()`frames
      ensures Valid() && this.cols == cols && this.rows == rows
      ensures log == if socket != null && socket.state == Open then old(log) + [Resize(cols, rows)] else old(log)
      ensures socket != null && socket.state == Open ==> socket.frames == old(socket.frames) + [Resize(cols, rows)]
    {
      this.cols, this.rows := cols, rows;
      Control(Resize(cols, rows));
    }

    method AskClose()
      requires SocketsInOrder() && CloseNotForgotten() && InputInOrder(log, pending, typed, autorun)
      modifies `closeRequested, `log, Current()`frames
      ensures SocketsInOrder() && CloseNotForgotten() && InputInOrder(log, pending, typed, autorun) && closeRequested
      ensures log == if socket != null && socket.state == Open then old(log) + [Close] else old(log)
      ensures socket != null && socket.state == Open ==> socket.frames == old(socket.frames) + [Close]
    {
      closeRequested := true;
      Control(Close);
    }

    /** The user closed the tab: the child must end. */
    method RequestClose()
      requires Valid()
      modifies `closeRequested, `log, Current()`frames
      ensures Valid() && closeRequested && typed == old(typed) && reports == old(reports)
      ensures log == if socket != null && socket.state == Open then old(log) + [Close] else old(log)
      ensures socket != null && socket.state == Open ==> socket.frames == old(socket.frames) + [Close]
    {
      AskClose();
    }

    /** `dispose` with a close still to deliver: the socket stays up for it, alone. */
    method DisposeArmed()
      requires Valid() && socket != null && closeRequested && socket.state != Open
      modifies `disposed, `socket, Current()`listening, Current()`onopen
      ensures Valid() && disposed && socket == null
      ensures old(socket).state == old(socket.state) && old(socket).onopen == DeliverClose && !old(socket).listening
    {
      disposed := true;
      var armed := DeliverPendingClose();
      socket := null;
    }

    method LetGo()
      requires SocketsInOrder() && CloseNotForgotten() && (socket == null || !closeRequested || socket.state == Open)
      modifies `disposed, `abandoned, `socket, Current()
      ensures SocketsInOrder() && CloseNotForgotten() && disposed && socket == null
      ensures abandoned ==> old(abandoned) || (sockets != {} && !closeRequested)
      ensures var was := old(socket); was != null ==>
                was.state == (if old(was.state) == Lost then Lost else Closing) && was.onopen == Unset && !was.listening
                && was.frames == old(was.frames)
    {
      disposed := true;
      abandoned := abandoned || (sockets != {} && !closeRequested);
      Detach();
    }

    /** `dispose` with nothing to deliver: the socket is dropped. */
    method DisposeDetached()
      requires Valid() && (socket == null || !closeRequested || socket.state == Open)
      modifies `disposed, `abandoned, `socket, Current()
      ensures Valid() && disposed && socket == null
      ensures abandoned ==> old(abandoned) || (sockets != {} && !closeRequested)
      ensures var was := old(socket); was != null ==>
                was.state == (if old(was.state) == Lost then Lost else Closing) && was.onopen == Unset && !was.listening
                && was.frames == old(was.frames)
    {
      LetGo();
    }

    /** The pane unmounted: the child lives on, unless its end was already asked for. */
    method Dispose()
      requires Valid()
      modifies `disposed, `abandoned, `socket, Current()
      ensures Valid() && disposed && socket == null
      ensures abandoned ==> old(abandoned) || (sockets != {} && !closeRequested)
      ensures var was := old(socket); was != null ==> !was.listening && was.frames == old(was.frames)
      ensures var was := old(socket); was != null ==>
                if closeRequested && old(was.state) != Open then was.state == old(was.state) && was.onopen == DeliverClose
                else was.state == (if old(was.state) == Lost then Lost else Closing) && was.onopen == Unset
    {
      if socket != null && closeRequested && socket.state != Open {
        DisposeArmed();
      } else {
        DisposeDetached();
      }
    }

    // ------------------------------------------------------------ what the browser does

    /** `onopen` as `attach` set it. */
    method OpensAndFlushes(s: Socket, cols: nat, rows: nat)
      requires Valid() && s in sockets && s.state == Connecting && s.onopen == Flush
      modifies `cols, `rows, `pending, `log, Current()`state, Current()`frames
      ensures Valid() && pending == [] && s.state == Open && this.cols == cols && this.rows == rows
      ensures s.frames == old(s.frames) + Flushed(cols, rows, old(pending), closeRequested) && log == old(log) + Flushed(cols, rows, old(pending), closeRequested)
    {
      OpenUp(s, cols, rows);
      CloseGoesLast(old(log), cols, rows, old(pending));
    }

    method OpenUp(s: Socket, cols: nat, rows: nat)
      requires SocketsInOrder() && InputInOrder(log, pending, typed, autorun)
      requires s in sockets && s.state == Connecting && s.onopen == Flush
      modifies `cols, `rows, `pending, `log, Current()`state, Current()`frames
      ensures SocketsInOrder() && InputInOrder(log, pending, typed, autorun)
      ensures pending == [] && socket == s && s.state == Open && this.cols == cols && this.rows == rows
      ensures s.frames == old(s.frames) + Flushed(cols, rows, old(pending), closeRequested)
      ensures log == old(log) + Flushed(cols, rows, old(pending), closeRequested)
    {
      s.state := Open;
      FlushPending(cols, rows);
    }

    method CloseOver(s: Socket)
      requires SocketsInOrder() && CloseNotForgotten() && InputInOrder(log, pending, typed, autorun)
      requires s in sockets && s.state == Connecting && s.onopen == DeliverClose
      modifies `log, s`state, s`frames
      ensures SocketsInOrder() && CloseNotForgotten() && InputInOrder(log, pending, typed, autorun)
      ensures s.state == Closing && s.frames == old(s.frames) + [Close] && log == old(log) + [Close]
    {
      s.state := Open;
      s.frames := s.frames + [Close];
      ghost var sent := log + [Close];
      FrameKeepsInput(log, pending, typed, autorun, Close);
      assert Close in sent by { assert sent[|log|] == Close; }
      log := sent;
      s.state := Closing;
    }

    /** `onopen` as `deliverPendingClose` set it. */
    method OpensToClose(s: Socket)
      requires Valid() && s in sockets && s.state == Connecting && s.onopen == DeliverClose
      modifies `log, s`state, s`frames
      ensures Valid() && typed == old(typed) && reports == old(reports)
      ensures closeRequested && s.state == Closing
      ensures s.frames == old(s.frames) + [Close] && log == old(log) + [Close]
    {
      CloseOver(s);
    }

    /** A socket opens. If a close was ever requested, it goes out now, last. */
    method SocketOpens(s: Socket, cols: nat, rows: nat)
      requires Valid() && s in sockets && s.state == Connecting
      modifies `cols, `rows, `pending, `log, sockets`state, sockets`frames
      ensures Valid() && s.state == if old(s.onopen) == Flush then Open else Closing
      ensures if old(s.onopen) == Flush
              then pending == [] && s.frames == old(s.frames) + Flushed(cols, rows, old(pending), closeRequested)
              else pending == old(pending) && closeRequested && s.frames == old(s.frames) + [Close]
      ensures closeRequested ==> s.frames != [] && s.frames[|s.frames| - 1] == Close && Close in log
    {
      if s.onopen == Flush {
        OpensAndFlushes(s, cols, rows);
      } else {
        OpensToClose(s);
      }
    }

    method SendAutorun()
      requires InputInOrder(log, pending, typed, autorun) && CloseNotForgotten() && autorun.Some?
      requires socket != null && socket.state == Open ==> pending == []
      modifies `autorun, `pending, `log, `typed, Current()`frames
      ensures InputInOrder(log, pending, typed, autorun) && CloseNotForgotten() && autorun.None?
      ensures socket != null && socket.state == Open ==> pending == []
      ensures var line := old(autorun).value + "\n";
              && typed == old(typed) + [Typed(line, true)]
              && if socket != null && socket.state == Open
                 then socket.frames == old(socket.frames) + [Input(line)]
                 else pending == old(pending) + [line]
    {
      var line := autorun.value;
      ghost var unsent := autorun;
      autorun := None;
      Send(line + "\n", true, unsent);
    }

    /** `typeAutorun`: the autorun line, once. */
    method TypeAutorun()
      requires Valid()
      modifies `autorun, `pending, `log, `typed, Current()`frames
      ensures Valid() && autorun.None?
      ensures socket != null && socket.state == Open ==>
                socket.frames == old(socket.frames) + if old(autorun).Some? then [Input(old(autorun).value + "\n")] else []
      ensures typed == if old(autorun).Some? then old(typed) + [Typed(old(autorun).value + "\n", true)] else old(typed)
    {
      if autorun.Some? { SendAutorun(); }
    }

    /** Output arrives; the first of it types the autorun line. */
    method SocketDraws(bytes: seq<Byte>)
      requires Valid() && socket != null && socket.listening && socket.state == Open
      modifies `screen, `autorun, `pending, `log, `typed, Current()`frames
      ensures Valid() && autorun.None? && screen == old(screen) + [bytes]
      ensures socket.frames == old(socket.frames) + if old(autorun).Some? then [Input(old(autorun).value + "\n")] else []
      ensures typed == if old(autorun).Some? then old(typed) + [Typed(old(autorun).value + "\n", true)] else old(typed)
    {
      screen := screen + [bytes];
      TypeAutorun();
    }

    /** A control frame arrives: the exit status, a resync, or something to ignore. */
    method SocketControls(message: Inbound)
      requires Valid() && socket != null && socket.listening && socket.state == Open && !message.Output?
      modifies `ended, `reports, `socket, `sockets, `screen, socket`state, socket`onopen, socket`listening
      ensures Valid() && ended == (old(ended) || message.ExitFrame?)
      ensures reports == if message.ExitFrame? then old(reports) + [Exited(message.code)] else old(reports)
      ensures if message.ResyncFrame? then socket != null && fresh(socket) && screen == [] && sockets == old(sockets) + {socket}
              else socket == old(socket) && screen == old(screen) && sockets == old(sockets)
    {
      match message
      case ExitFrame(code) =>
        ended := true;
        Report(Exited(code));
      case ResyncFrame =>
        Resync();
      case Undecodable =>
    }

    /** `resync`: throw the screen away and attach again. */
    method Resync()
      requires Valid() && socket != null && socket.listening && socket.state == Open
      modifies `socket, `sockets, `screen, socket`state, socket`onopen, socket`listening
      ensures Valid() && socket != null && fresh(socket) && screen == [] && sockets == old(sockets) + {socket}
      ensures socket.state == Connecting && socket.onopen == Flush && socket.listening && socket.frames == []
      ensures old(socket).state == Closing && old(socket).onopen == Unset && !old(socket).listening
    {
      Detach();
      screen := [];
      Attach();
    }

    /** A socket closes under the session, or fails. */
    method SocketLost(s: Socket)
      requires Valid() && s in sockets && (s.state == Connecting || s.state == Open)
      modifies `ended, `reports, s`state
      ensures Valid() && s.state == Lost
      ensures var heard := s.listening && !old(ended) && !disposed;
              && ended == (old(ended) || heard)
              && reports == old(reports) + if heard then [Failed("the connection to this terminal was lost")] else []
    {
      s.state := Lost;
      if s.listening && !(ended || disposed) {
        ended := true;
        Report(Failed("the connection to this terminal was lost"));
      }
    }
  }
}
