/** The connection object of `internal/stream/conn.go`: its fields, `send` and `finish` as the
    producer runs them, and `writePump` one atomic operation at a time. The protocol state is
    carried beside the fields, so whatever holds of every interleaving holds of the object. */
module StreamConn {
  import opened Sequences
  import opened StreamProtocol
  import opened StreamSafety

  /** Where `writePump` stands, as the running code knows it. */
  datatype Stage =
    | AtSelect
    | AtSwap(frame: Frame)
    | AtMarker(frame: Frame, taken: nat)
    | AtFrame(frame: Frame)
    | AtDrain
    | AtDrainMarker(taken: nat)
    | AtClosure
    | Gone

  function StageOf(p: Pump): Stage {
    match p
    case Waiting => AtSelect
    case Holding(held) => AtSwap(held.frame)
    case Marking(held, taken, _) => AtMarker(held.frame, taken)
    case Writing(held, _) => AtFrame(held.frame)
    case Draining => AtDrain
    case DrainMarking(taken) => AtDrainMarker(taken)
    case Closing => AtClosure
    case Stopped(_, _) => Gone
  }

  /** A message as the peer receives it. */
  datatype Message = Resync(droppedBytes: nat) | Payload(frame: Frame) | NormalClose

  function MessageOf(w: Wire): Message {
    match w
    case Marker(bytes) => Resync(bytes)
    case Data(held, _) => Payload(held.frame)
    case Closure => NormalClose
  }

  function Messages(wire: seq<Wire>): seq<Message> {
    if wire == [] then [] else Messages(wire[..|wire| - 1]) + [MessageOf(wire[|wire| - 1])]
  }

  lemma MessagesSnoc(wire: seq<Wire>, w: Wire)
    ensures Messages(wire + [w]) == Messages(wire) + [MessageOf(w)]
  {
    assert (wire + [w])[..|wire|] == wire;
  }

  /** The peer receives what was written, one message for each write. */
  lemma {:induction false} MessagesAreTheWire(wire: seq<Wire>, i: nat)
    requires i < |wire|
    ensures |Messages(wire)| == |wire|
    ensures wire[i].Data? ==> Messages(wire)[i] == Payload(wire[i].held.frame)
    ensures wire[i].Marker? ==> Messages(wire)[i] == Resync(wire[i].bytes)
    ensures wire[i].Closure? ==> Messages(wire)[i] == NormalClose
  {
    var n := |wire| - 1;
    if n > 0 { MessagesAreTheWire(wire[..n], if i < n then i else 0); }
  }

  /** What another goroutine may do between two operations of `send`. */
  datatype Meanwhile = Pumps(move: PumpStep) | Closes

  /** What happens to fall between the operations of one `send`. */
  datatype Schedule = Schedule(first: seq<Meanwhile>, second: seq<Meanwhile>,
                               counting: seq<Meanwhile>, third: seq<Meanwhile>)

  class Conn {
    const capacity: nat
    var frames: seq<Frame>
    var closed: bool
    var dropped: nat
    var done: bool
    var stage: Stage
    var peer: seq<Message>
    ghost var state: State           // the protocol state these fields stand for
    ghost var trace: seq<Action>     // the interleaving that led here

    /** The fields are what the protocol says they are. */
    ghost predicate Mirrors(s: State)
      reads this
    {
      && frames == s.frames && closed == s.closed
      && dropped == s.dropped && done == s.done
      && stage == StageOf(s.pump)
      && peer == Messages(s.wire)
    }

    ghost predicate Valid()
      reads this
    {
      capacity > 0 && state == Run(capacity, INITIAL, trace) && Mirrors(state)
    }

    constructor (capacity: nat)
      requires capacity > 0
      ensures Valid() && state == INITIAL && this.capacity == capacity
    {
      this.capacity := capacity;
      frames, closed, dropped, done := [], false, 0, false;
      stage, peer := AtSelect, [];
      state, trace := INITIAL, [];
    }

    /** Records the atomic step the fields have just taken. */
    ghost method Record(a: Action, next: State)
      requires capacity > 0 && state == Run(capacity, INITIAL, trace)
      requires next == Next(capacity, state, a) && Mirrors(next)
      modifies `trace, `state
      ensures Valid() && state == next && trace == old(trace) + [a]
    {
      assert (trace + [a])[..|trace|] == trace;
      trace, state := trace + [a], next;
    }

    // ------------------------------------------------------------ writePump

    /** The receive: the oldest frame, or the end of a closed queue. */
    method Receive()
      requires Valid() && stage.AtSelect? && (frames != [] || closed)
      modifies this
      ensures Valid() && trace == old(trace) + [Pumping(Take)] && state == TakeNext(old(state))
      ensures old(frames) != [] ==> frames == old(frames)[1..] && stage == AtSwap(old(frames)[0])
      ensures old(frames) == [] ==> frames == [] && stage == AtDrain
      ensures peer == old(peer) && dropped == old(dropped) && closed == old(closed) && done == old(done)
    {
      if frames != [] {
        stage := AtSwap(frames[0]);
        frames := frames[1..];
      } else {
        stage := AtDrain;
      }
      Record(Pumping(Take), TakeNext(state));
    }

    /** The atomic swap of `markResync`, called from `write`. */
    method TakeCounter()
      requires Valid() && stage.AtSwap?
      modifies this
      ensures Valid() && trace == old(trace) + [Pumping(Swap)] && state == SwapNext(old(state))
      ensures stage == if old(dropped) == 0 then AtFrame(old(stage.frame)) else AtMarker(old(stage.frame), old(dropped))
      ensures dropped == 0 && peer == old(peer) && frames == old(frames) && closed == old(closed) && done == old(done)
    {
      stage := if dropped == 0 then AtFrame(stage.frame) else AtMarker(stage.frame, dropped);
      dropped := 0;
      Record(Pumping(Swap), SwapNext(state));
    }

    /** The atomic swap of `markResync`, called from `drain`. */
    method TakeCounterAtDrain()
      requires Valid() && stage.AtDrain?
      modifies this
      ensures Valid() && trace == old(trace) + [Pumping(Swap)] && state == SwapNext(old(state))
      ensures stage == if old(dropped) == 0 then AtClosure else AtDrainMarker(old(dropped))
      ensures dropped == 0 && peer == old(peer) && frames == old(frames) && closed == old(closed) && done == old(done)
    {
      stage := if dropped == 0 then AtClosure else AtDrainMarker(dropped);
      dropped := 0;
      Record(Pumping(Swap), SwapNext(state));
    }

    /** Writing the resync marker ahead of a frame; a failed write ends the pump. */
    method WriteResync(ok: bool)
      requires Valid() && stage.AtMarker?
      modifies this
      ensures Valid() && trace == old(trace) + [Pumping(WriteMarker(ok))] && state == MarkerNext(old(state), ok)
      ensures stage == if ok then AtFrame(old(stage.frame)) else Gone
      ensures peer == old(peer) + if ok then [Resync(old(stage.taken))] else []
      ensures dropped == old(dropped) && frames == old(frames) && closed == old(closed) && done == old(done)
    {
      if ok {
        MessagesSnoc(state.wire, Marker(stage.taken));
        peer := peer + [Resync(stage.taken)];
        stage := AtFrame(stage.frame);
      } else {
        stage := Gone;
      }
      Record(Pumping(WriteMarker(ok)), MarkerNext(state, ok));
    }

    /** Writing the resync marker `drain` ends with, if anything was left to report. */
    method WriteTrailingResync(ok: bool)
      requires Valid() && stage.AtDrainMarker?
      modifies this
      ensures Valid() && trace == old(trace) + [Pumping(WriteMarker(ok))] && state == MarkerNext(old(state), ok)
      ensures stage == if ok then AtClosure else Gone
      ensures peer == old(peer) + if ok then [Resync(old(stage.taken))] else []
      ensures dropped == old(dropped) && frames == old(frames) && closed == old(closed) && done == old(done)
    {
      if ok {
        MessagesSnoc(state.wire, Marker(stage.taken));
        peer := peer + [Resync(stage.taken)];
        stage := AtClosure;
      } else {
        stage := Gone;
      }
      Record(Pumping(WriteMarker(ok)), MarkerNext(state, ok));
    }

    method WriteQueued(ok: bool)
      requires Valid() && stage.AtFrame?
      modifies this
      ensures Valid() && trace == old(trace) + [Pumping(WriteFrame(ok))] && state == FrameNext(old(state), ok)
      ensures stage == if ok then AtSelect else Gone
      ensures peer == old(peer) + if ok then [Payload(old(stage.frame))] else []
      ensures dropped == old(dropped) && frames == old(frames) && closed == old(closed) && done == old(done)
    {
      if ok {
        MessagesSnoc(state.wire, Data(state.pump.held, state.pump.missed));
        peer := peer + [Payload(stage.frame)];
        stage := AtSelect;
      } else {
        stage := Gone;
      }
      Record(Pumping(WriteFrame(ok)), FrameNext(state, ok));
    }

    method WriteNormalClosure(ok: bool)
      requires Valid() && stage.AtClosure?
      modifies this
      ensures Valid() && trace == old(trace) + [Pumping(WriteClosure(ok))] && state == ClosureNext(old(state), ok)
      ensures stage == Gone && peer == old(peer) + if ok then [NormalClose] else []
      ensures dropped == old(dropped) && frames == old(frames) && closed == old(closed) && done == old(done)
    {
      if ok {
        MessagesSnoc(state.wire, Closure);
        peer := peer + [NormalClose];
        stage := Gone;
        Record(Pumping(WriteClosure(true)), ClosureNext(state, true));
      } else {
        stage := Gone;
        Record(Pumping(WriteClosure(false)), ClosureNext(state, false));
      }
    }

    /** Whether the pump stands at the operation a move names. */
    predicate Ready(move: PumpStep)
      reads this
    {
      match move
      case Take => stage.AtSelect? && (frames != [] || closed)
      case Quit => stage.AtSelect? && done
      case Swap => stage.AtSwap? || stage.AtDrain?
      case WriteMarker(_) => stage.AtMarker? || stage.AtDrainMarker?
      case WriteFrame(_) => stage.AtFrame?
      case WriteClosure(_) => stage.AtClosure?
    }

    /** One atomic operation of `writePump`. */
    method Move(move: PumpStep)
      requires Valid() && Ready(move)
      modifies this
      ensures Valid() && trace == old(trace) + [Pumping(move)] && state == PumpNext(old(state), move)
      ensures move == Quit ==> stage == Gone && peer == old(peer)
    {
      match move
      case Take => Receive();
      case Swap => if stage.AtSwap? { TakeCounter(); } else { TakeCounterAtDrain(); }
      case WriteMarker(ok) => if stage.AtMarker? { WriteResync(ok); } else { WriteTrailingResync(ok); }
      case WriteFrame(ok) => WriteQueued(ok);
      case WriteClosure(ok) => WriteNormalClosure(ok);
      case Quit =>
        stage := Gone;
        Record(Pumping(Quit), PumpNext(state, Quit));
    }

    /** Lets the other goroutines run a while. */
    method Interleave(moves: seq<Meanwhile>)
      requires Valid()
      modifies this
      ensures Valid() && old(trace) <= trace
      ensures state.producer == old(state.producer) && state.sent == old(state.sent)
      ensures state.exitSent == old(state.exitSent)
    {
      for i := 0 to |moves|
        invariant Valid() && old(trace) <= trace
        invariant state.producer == old(state.producer) && state.sent == old(state.sent)
        invariant state.exitSent == old(state.exitSent)
      {
        match moves[i]
        case Pumps(move) =>
          if Ready(move) {
            PumpLeavesProducer(state, move);
            Move(move);
          }
        case Closes => Close();
      }
    }

    // ------------------------------------------------------------ send and finish

    /** The first select of `send`. */
    method TryPush(frame: Frame) returns (pushed: bool)
      requires Valid() && state.producer == Offering(frame)
      modifies this
      ensures Valid() && trace == old(trace) + [Producing(Offer)]
      ensures pushed <==> |old(frames)| < capacity
      ensures state == if pushed then old(state).(frames := old(frames) + [frame], producer := Idle)
                       else old(state).(producer := Evicting(frame))
    {
      pushed := |frames| < capacity;
      if pushed { frames := frames + [frame]; }
      Record(Producing(Offer), ProducerNext(capacity, state, Offer));
    }

    /** The second select of `send`, and the count of what it took off. */
    method EvictOldest(frame: Frame, counting: seq<Meanwhile>)
      requires Valid() && state.producer == Evicting(frame)
      modifies this
      ensures Valid() && old(trace) <= trace
      ensures state.producer == Reoffering(frame)
      ensures state.sent == old(state.sent) && state.exitSent == old(state.exitSent)
    {
      if frames != [] {
        var oldest := frames[0];
        frames := frames[1..];
        Record(Producing(Evict), ProducerNext(capacity, state, Evict));
        Interleave(counting);
        dropped := dropped + |oldest.data|;
        Record(Producing(Count), ProducerNext(capacity, state, Count));
      } else {
        Record(Producing(Evict), ProducerNext(capacity, state, Evict));
      }
    }

    /** The third select of `send`; the branch that counts the frame itself is never taken. */
    method PushAgain(frame: Frame)
      requires Valid() && state.producer == Reoffering(frame)
      modifies this
      ensures Valid() && old(trace) <= trace
      ensures state.producer.Idle? && state.sent == old(state.sent) && state.exitSent == old(state.exitSent)
      ensures frames == old(frames) + [frame] && dropped == old(dropped)
    {
      if |frames| < capacity {
        frames := frames + [frame];
        Record(Producing(Reoffer), ProducerNext(capacity, state, Reoffer));
      } else {
        Record(Producing(Reoffer), ProducerNext(capacity, state, Reoffer));
        ghost var refused := trace;
        dropped := dropped + |frame.data|;
        Record(Producing(CountOwn), ProducerNext(capacity, state, CountOwn));
        InvAlways(capacity, refused);
      }
    }

    /** Entry of `send`: the frame is now the producer's to deliver. */
    ghost method Begin(frame: Frame, exit: bool)
      requires Valid() && state.producer.Idle? && !state.exitSent
      modifies `trace, `state
      ensures Valid() && old(trace) <= trace
      ensures state == old(state).(sent := old(state.sent) + [frame], producer := Offering(frame), exitSent := exit)
    {
      var next := state.(sent := state.sent + [frame], producer := Offering(frame), exitSent := exit);
      if exit {
        Record(Producing(SendExit(frame)), next);
      } else {
        Record(Producing(StreamProtocol.Send(frame)), next);
      }
    }

    /** `send`: offer, make room by evicting the oldest, offer again.
        Whatever the pump and whoever closes the connection do meanwhile, the frame sent is in the queue when it returns. */
    method Send(frame: Frame, exit: bool, meanwhile: Schedule)
      requires Valid() && state.producer.Idle? && !state.exitSent
      modifies this
      ensures Valid() && old(trace) <= trace
      ensures state.producer.Idle? && state.exitSent == exit
      ensures state.sent == old(state.sent) + [frame]
      ensures frames != [] && frames[|frames| - 1] == frame
    {
      Begin(frame, exit);
      Interleave(meanwhile.first);
      var pushed := TryPush(frame);
      if !pushed {
        Interleave(meanwhile.second);
        EvictOldest(frame, meanwhile.counting);
        Interleave(meanwhile.third);
        PushAgain(frame);
      }
    }

    /** `finish`: no more frames; the pump drains what is queued. */
    method Finish()
      requires Valid() && state.producer.Idle? && state.exitSent
      modifies this
      ensures Valid() && trace == old(trace) + [Producing(StreamProtocol.Finish)]
      ensures closed && frames == old(frames) && dropped == old(dropped) && peer == old(peer)
    {
      closed := true;
      Record(Producing(StreamProtocol.Finish), ProducerNext(capacity, state, StreamProtocol.Finish));
    }

    /** `close`, from whichever goroutine gets there first. */
    method Close()
      requires Valid()
      modifies this
      ensures Valid() && trace == old(trace) + [CloseConn]
      ensures done && frames == old(frames) && dropped == old(dropped) && peer == old(peer)
      ensures state == old(state).(done := true)
    {
      done := true;
      Record(CloseConn, state.(done := true));
    }
  }
}
