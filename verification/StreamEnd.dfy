/** How a connection's pump ends, `writePump` and `drain` of `internal/stream/conn.go`: a finished
    queue is written out and closed normally, and nothing but a failed write or a closed connection
    keeps it from that. */
module StreamEnd {
  import opened Sequences
  import opened StreamProtocol
  import opened StreamSafety

  // ---------------------------------------------------------------- what ends a pump

  predicate IsFailedWrite(a: Action) {
    a.Pumping? && (a.move == WriteMarker(false) || a.move == WriteFrame(false) || a.move == WriteClosure(false))
  }

  /** A write failed, or the pump looked after the connection had been closed. */
  predicate CutShort(actions: seq<Action>) {
    actions != [] &&
    var front, a := actions[..|actions| - 1], actions[|actions| - 1];
    CutShort(front) || IsFailedWrite(a) || (a == Pumping(Quit) && CloseConn in front)
  }

  predicate EndsInClosure(s: State) {
    s.wire != [] && s.wire[|s.wire| - 1] == Closure
  }

  lemma {:induction false} DoneIsClosed(cap: nat, actions: seq<Action>)
    ensures Run(cap, INITIAL, actions).done <==> CloseConn in actions
  {
    if actions != [] {
      var front, a := actions[..|actions| - 1], actions[|actions| - 1];
      assert actions == front + [a];
      DoneIsClosed(cap, front);
      DoneKept(cap, Run(cap, INITIAL, front), a);
    }
  }

  lemma DoneKept(cap: nat, s: State, a: Action)
    ensures Next(cap, s, a).done <==> s.done || a == CloseConn
  {
    if a.Producing? { ProducerLeavesPump(cap, s, a.step); }
  }

  lemma StepStops(cap: nat, s: State, a: Action)
    requires s.pump.Stopped? ==> EndsInClosure(s)
    requires !IsFailedWrite(a) && (a == Pumping(Quit) ==> !s.done)
    ensures Next(cap, s, a).pump.Stopped? ==> EndsInClosure(Next(cap, s, a))
  {
    match a
    case Producing(step) => ProducerLeavesPump(cap, s, step);
    case Pumping(move) => MoveStops(s, move);
    case CloseConn =>
  }

  lemma ProducerLeavesPump(cap: nat, s: State, step: ProducerStep)
    ensures var t := ProducerNext(cap, s, step); t.pump == s.pump && t.wire == s.wire && t.done == s.done
  {
  }

  lemma MoveStops(s: State, move: PumpStep)
    requires s.pump.Stopped? ==> EndsInClosure(s)
    requires !IsFailedWrite(Pumping(move)) && (move == Quit ==> !s.done)
    ensures PumpNext(s, move).pump.Stopped? ==> EndsInClosure(PumpNext(s, move))
  {
  }

  /** In every interleaving a pump that has stopped has closed normally, unless a write failed or the
      connection was closed under it. */
  lemma {:induction false} StopsWithClosure(cap: nat, actions: seq<Action>)
    ensures var s := Run(cap, INITIAL, actions); s.pump.Stopped? ==> EndsInClosure(s) || CutShort(actions)
  {
    if actions != [] && !CutShort(actions) {
      var front, a := actions[..|actions| - 1], actions[|actions| - 1];
      StopsWithClosure(cap, front);
      DoneIsClosed(cap, front);
      StepStops(cap, Run(cap, INITIAL, front), a);
    }
  }

  /** A failed write is the pump's last, and so is looking once the connection is closed. */
  lemma CutsAreFinal(s: State)
    ensures s.pump.Marking? || s.pump.DrainMarking? ==> PumpNext(s, WriteMarker(false)).pump.Stopped?
    ensures s.pump.Writing? ==> PumpNext(s, WriteFrame(false)).pump.Stopped?
    ensures s.pump.Closing? ==> PumpNext(s, WriteClosure(false)).pump.Stopped?
    ensures s.pump.Waiting? && s.done ==> PumpNext(s, Quit).pump.Stopped?
    ensures forall move | move in {WriteMarker(false), WriteFrame(false), WriteClosure(false), Quit} :: PumpNext(s, move).wire == s.wire
  {
  }

  /** A stopped pump writes nothing more. */
  lemma {:induction false} StoppedForGood(cap: nat, s: State, actions: seq<Action>)
    requires s.pump.Stopped?
    ensures var t := Run(cap, s, actions); t.pump == s.pump && t.wire == s.wire
  {
    if actions != [] {
      StoppedForGood(cap, s, actions[..|actions| - 1]);
      StoppedStep(cap, Run(cap, s, actions[..|actions| - 1]), actions[|actions| - 1]);
    }
  }

  lemma StoppedStep(cap: nat, s: State, a: Action)
    requires s.pump.Stopped?
    ensures Next(cap, s, a).pump == s.pump && Next(cap, s, a).wire == s.wire
  {
    if a.Producing? { ProducerLeavesPump(cap, s, a.step); }
  }

  // ---------------------------------------------------------------- a finished queue is written out

  /** The frames a client receives. */
  function Payloads(wire: seq<Wire>): seq<Frame> {
    if wire == [] then [] else
    Payloads(wire[..|wire| - 1]) + if wire[|wire| - 1].Data? then [wire[|wire| - 1].held.frame] else []
  }

  lemma PayloadsSnoc(wire: seq<Wire>, w: Wire)
    ensures Payloads(wire + [w]) == Payloads(wire) + if w.Data? then [w.held.frame] else []
  {
    assert (wire + [w])[..|wire|] == wire;
  }

  /** The operation the pump stands at, when nothing fails. */
  function Onward(p: Pump): PumpStep {
    match p
    case Waiting => Take
    case Holding(_) => Swap
    case Marking(_, _, _) => WriteMarker(true)
    case Writing(_, _) => WriteFrame(true)
    case Draining => Swap
    case DrainMarking(_) => WriteMarker(true)
    case Closing => WriteClosure(true)
    case Stopped(_, _) => Quit
  }

  /** What is still to be written: the frame in hand, then the queue. */
  function Remaining(s: State): seq<Frame> {
    var hand := InHand(s.pump);
    (if hand.Some? then [hand.value.frame] else []) + s.frames
  }

  /** At most this many operations are left. */
  function Work(s: State): nat {
    4 * |s.frames| +
    match s.pump
    case Waiting => 4
    case Holding(_) => 7
    case Marking(_, _, _) => 6
    case Writing(_, _) => 5
    case Draining => 3
    case DrainMarking(_) => 2
    case Closing => 1
    case Stopped(_, _) => 0
  }

  /** A pump that found the queue finished has left nothing in it. */
  predicate EmptyAtTheEnd(s: State) {
    s.pump.Draining? || s.pump.DrainMarking? || s.pump.Closing? ==> s.frames == []
  }

  lemma OnwardShortens(s: State)
    requires s.closed && !s.pump.Stopped? && EmptyAtTheEnd(s)
    ensures var t := PumpNext(s, Onward(s.pump));
            t.closed && Work(t) < Work(s) && EmptyAtTheEnd(t) && (t.pump.Stopped? ==> EndsInClosure(t) && t.frames == [] && InHand(t.pump) == None)
  {
  }

  /** The frame written is the first of those that remained. */
  lemma WritePays(s: State)
    requires s.pump.Writing?
    ensures var t := FrameNext(s, true); Payloads(t.wire) == Payloads(s.wire) + [s.pump.held.frame] && Remaining(s) == [s.pump.held.frame] + Remaining(t)
  {
    PayloadsSnoc(s.wire, Data(s.pump.held, s.pump.missed));
  }

  /** Taking a frame, or taking the counter, leaves all of them to be written. */
  lemma TakingKeepsRemaining(s: State)
    requires s.pump.Waiting? || s.pump.Holding? || s.pump.Draining?
    ensures var t := PumpNext(s, Onward(s.pump)); t.wire == s.wire && Remaining(t) == Remaining(s)
  {
  }

  /** And so does writing a marker, or the closure. */
  lemma ControlKeepsRemaining(s: State)
    requires s.pump.Marking? || s.pump.DrainMarking? || s.pump.Closing?
    ensures var t := PumpNext(s, Onward(s.pump)); Payloads(t.wire) == Payloads(s.wire) && Remaining(t) == Remaining(s)
  {
    PayloadsSnoc(s.wire, if s.pump.Closing? then Closure else Marker(s.pump.taken));
  }

  lemma OnwardKeepsPayloads(s: State)
    requires !s.pump.Stopped?
    ensures var t := PumpNext(s, Onward(s.pump)); Payloads(t.wire) + Remaining(t) == Payloads(s.wire) + Remaining(s)
  {
    if s.pump.Writing? {
      WritePays(s);
      Assoc(Payloads(s.wire), [s.pump.held.frame], Remaining(FrameNext(s, true)));
    } else if s.pump.Waiting? || s.pump.Holding? || s.pump.Draining? {
      TakingKeepsRemaining(s);
    } else {
      ControlKeepsRemaining(s);
    }
  }

  /** All of a pump's operations, with no write failing and no look at the connection's state. */
  predicate Unhindered(moves: seq<Action>) {
    forall i | 0 <= i < |moves| :: moves[i].Pumping? && !IsFailedWrite(moves[i]) && moves[i].move != Quit
  }

  /** These operations, none of which fails, write out all that remains and close normally. */
  predicate WritesOut(cap: nat, s: State, moves: seq<Action>) {
    var t := Run(cap, s, moves);
    && Unhindered(moves) && |moves| <= Work(s)
    && t.pump.Stopped? && EndsInClosure(t) && Payloads(t.wire) == Payloads(s.wire) + Remaining(s)
  }

  /** An operation that leaves less to do, and the same frames to be written. */
  predicate Advances(cap: nat, s: State, move: PumpStep, t: State) {
    && Run(cap, s, [Pumping(move)]) == t && Work(t) < Work(s)
    && Payloads(t.wire) + Remaining(t) == Payloads(s.wire) + Remaining(s)
    && !IsFailedWrite(Pumping(move)) && move != Quit
  }

  lemma OnwardAdvances(cap: nat, s: State)
    requires s.closed && !s.pump.Stopped? && EmptyAtTheEnd(s)
    ensures Advances(cap, s, Onward(s.pump), PumpNext(s, Onward(s.pump)))
  {
    OnwardShortens(s);
    OnwardKeepsPayloads(s);
    OneMove(cap, s, Onward(s.pump));
  }

  lemma OnwardEnds(s: State)
    requires s.closed && !s.pump.Stopped? && EmptyAtTheEnd(s)
    ensures var t := PumpNext(s, Onward(s.pump));
            t.closed && EmptyAtTheEnd(t) && (t.pump.Stopped? ==> EndsInClosure(t) && Remaining(t) == [])
  {
    OnwardShortens(s);
  }

  lemma LastMove(cap: nat, s: State, move: PumpStep, t: State)
    requires Advances(cap, s, move, t) && t.pump.Stopped? && EndsInClosure(t) && Remaining(t) == []
    ensures WritesOut(cap, s, [Pumping(move)])
  {
    assert Payloads(t.wire) + [] == Payloads(t.wire);
  }

  lemma OneMoreMove(cap: nat, s: State, move: PumpStep, t: State, rest: seq<Action>)
    requires Advances(cap, s, move, t) && WritesOut(cap, t, rest)
    ensures WritesOut(cap, s, [Pumping(move)] + rest)
  {
    RunConcat(cap, s, [Pumping(move)], rest);
    UnhinderedMore(move, rest);
  }

  lemma UnhinderedMore(move: PumpStep, rest: seq<Action>)
    requires Unhindered(rest) && !IsFailedWrite(Pumping(move)) && move != Quit
    ensures Unhindered([Pumping(move)] + rest)
  {
  }

  lemma {:induction false} PumpsOn(cap: nat, s: State) returns (moves: seq<Action>)
    requires s.closed && !s.pump.Stopped? && EmptyAtTheEnd(s)
    ensures WritesOut(cap, s, moves)
    decreases Work(s)
  {
    var t := PumpNext(s, Onward(s.pump));
    OnwardAdvances(cap, s);
    OnwardEnds(s);
    if t.pump.Stopped? {
      moves := [Pumping(Onward(s.pump))];
      LastMove(cap, s, Onward(s.pump), t);
    } else {
      var rest := PumpsOn(cap, t);
      moves := [Pumping(Onward(s.pump))] + rest;
      OneMoreMove(cap, s, Onward(s.pump), t, rest);
    }
  }

  lemma OneMove(cap: nat, s: State, move: PumpStep)
    ensures Run(cap, s, [Pumping(move)]) == PumpNext(s, move)
  {
    RunSnoc(cap, s, [], Pumping(move));
    assert [] + [Pumping(move)] == [Pumping(move)];
  }

  /** Wherever a run has come to once the queue is finished, a pump whose writes succeed writes out
      what it holds and all that is queued, in order, and closes normally. */
  lemma {:induction false} DrainsToClosure(cap: nat, actions: seq<Action>) returns (moves: seq<Action>)
    requires cap > 0 && Run(cap, INITIAL, actions).closed && !Run(cap, INITIAL, actions).pump.Stopped?
    ensures var s := Run(cap, INITIAL, actions); var t := Run(cap, s, moves);
            && Unhindered(moves) && |moves| <= Work(s)
            && t.pump.Stopped? && EndsInClosure(t) && Payloads(t.wire) == Payloads(s.wire) + Remaining(s)
  {
    InvAlways(cap, actions);
    moves := PumpsOn(cap, Run(cap, INITIAL, actions));
  }

  /** With nothing left it writes the closure and no more. */
  lemma EmptyQueueCloses(s: State)
    requires s.pump.Waiting? && s.closed && s.frames == [] && s.dropped == 0
    ensures var t := PumpNext(PumpNext(PumpNext(s, Take), Swap), WriteClosure(true)); t.wire == s.wire + [Closure] && t.pump == Stopped(None, 0)
  {
  }

  /** A drop still on the counter then is reported ahead of the closure. */
  lemma DrainReportsFirst(s: State)
    requires s.pump.Waiting? && s.closed && s.frames == [] && s.dropped > 0
    ensures var t := PumpNext(PumpNext(PumpNext(PumpNext(s, Take), Swap), WriteMarker(true)), WriteClosure(true));
            t.wire == s.wire + [Marker(s.dropped)] + [Closure] && t.dropped == 0 && t.pump == Stopped(None, 0)
  {
  }

  /** Undisturbed, a send puts its frame newest in the queue: behind all that is there when there is room,
      and otherwise in place of the oldest, which is counted. */
  lemma SendGoesThrough(cap: nat, s: State, frame: Frame)
    requires s.producer.Idle? && !s.exitSent && |s.frames| <= cap && cap > 0
    ensures var t := ProducerNext(cap, ProducerNext(cap, s, Send(frame)), Offer); var began := s.(sent := s.sent + [frame]);
            if |s.frames| < cap then t == began.(frames := s.frames + [frame])
            else MakesRoom(cap, t) ==
                   began.(frames := s.frames[1..] + [frame], fates := s.fates + [Evicted(s.frames[0])],
                          dropped := s.dropped + |s.frames[0].data|)
    ensures ProducerNext(cap, s, SendExit(frame)) == ProducerNext(cap, s, Send(frame)).(exitSent := true)
  {
  }

  function MakesRoom(cap: nat, s: State): State {
    ProducerNext(cap, ProducerNext(cap, ProducerNext(cap, s, Evict), Count), Reoffer)
  }

  /** When the pump has emptied the queue meanwhile there is nothing to evict. */
  lemma NothingToEvict(cap: nat, s: State)
    requires s.producer.Evicting? && s.frames == [] && cap > 0
    ensures ProducerNext(cap, ProducerNext(cap, s, Evict), Reoffer) == s.(frames := [s.producer.frame], producer := Idle)
  {
  }

  /** A frame that still finds no room is counted as lost itself. */
  lemma NoRoomCountsOwn(cap: nat, s: State)
    requires s.producer.Reoffering? && |s.frames| >= cap
    ensures var t := ProducerNext(cap, ProducerNext(cap, s, Reoffer), CountOwn);
            t == s.(dropped := s.dropped + |s.producer.frame.data|, producer := Idle)
  {
  }

  /** A forwarder that has left, or finished, sends nothing more. */
  lemma LeftSendsNothing(cap: nat, s: State, frame: Frame)
    requires s.producer.Idle?
    ensures var t := ProducerNext(cap, s, if s.exitSent then Finish else Leave);
            t.producer == Returned && ProducerNext(cap, t, Send(frame)) == t && ProducerNext(cap, t, SendExit(frame)) == t
            && t.closed == (s.closed || s.exitSent)
  {
  }

  /** And while the queue is open and empty it waits. */
  lemma OpenQueueWaits(s: State)
    requires s.pump.Waiting? && !s.closed && s.frames == []
    ensures PumpNext(s, Take) == s
  {
  }
}
