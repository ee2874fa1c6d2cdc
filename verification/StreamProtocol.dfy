/** The outbound queue of one terminal connection, as a protocol between two threads.
    The producer is the forwarder of `internal/stream/terminal.go`; the pump is `writePump`
    of `internal/stream/conn.go`. Every select, channel operation and atomic operation is one
    action of its own, so a list of actions is an interleaving of the two threads. */
module StreamProtocol {
  import opened Sequences

  datatype Kind = Binary | Text

  datatype Frame = Frame(kind: Kind, data: seq<Byte>)

  /** A frame and its position in send order. */
  datatype Held = Held(frame: Frame, at: nat)

  /** What became of a frame that left the queue. */
  datatype Fate = Evicted(frame: Frame) | Taken(frame: Frame)

  /** What the socket saw. `missed` is history: the position of the evicted frame the
      producer had not counted yet when the pump emptied the counter, if it preceded this one. */
  datatype Wire =
    | Marker(bytes: nat)
    | Data(held: Held, missed: Option<nat>)
    | Closure

  /** Where the producer is inside `send`. */
  datatype Producer =
    | Idle
    | Offering(frame: Frame)                              // before the first select
    | Evicting(frame: Frame)                              // before the second select
    | Counting(frame: Frame, oldest: Frame, at: nat)      // oldest taken off, not yet counted
    | Reoffering(frame: Frame)                            // before the third select
    | CountingOwn(frame: Frame)                           // third select found no room
    | Returned

  /** Where the pump is. */
  datatype Pump =
    | Waiting                                             // at the select of writePump
    | Holding(held: Held)                      // before the counter is swapped
    | Marking(held: Held, taken: nat, missed: Option<nat>)
    | Writing(held: Held, missed: Option<nat>)
    | Draining                                            // queue closed and empty
    | DrainMarking(taken: nat)
    | Closing                                             // before the closure message
    | Stopped(left: Option<Held>, unreported: nat)          // what a failed write left behind

  datatype State = State(
    frames: seq<Frame>, closed: bool, dropped: nat, done: bool,
    producer: Producer, pump: Pump,
    exitSent: bool,          // the forwarder has sent its exit frame
    sent: seq<Frame>,        // history: every frame handed to send
    fates: seq<Fate>,        // history: every frame that left the queue
    wire: seq<Wire>)         // history: every successful socket write

  /** The forwarder: its sends, its end, and the atomic operations inside `send`. */
  datatype ProducerStep =
    | Send(frame: Frame) | SendExit(frame: Frame) | Finish | Leave
    | Offer | Evict | Count | Reoffer | CountOwn

  /** The atomic operations inside `writePump`. */
  datatype PumpStep =
    | Take | Quit | Swap | WriteMarker(ok: bool) | WriteFrame(ok: bool) | WriteClosure(ok: bool)

  datatype Action = Producing(step: ProducerStep) | Pumping(move: PumpStep) | CloseConn

  const INITIAL := State([], false, 0, false, Idle, Waiting, false, [], [], [])

  function ProducerNext(cap: nat, s: State, a: ProducerStep): State {
    match a
    case Send(f) =>
      if s.producer.Idle? && !s.exitSent then s.(sent := s.sent + [f], producer := Offering(f)) else s
    case SendExit(f) =>
      if s.producer.Idle? && !s.exitSent
      then s.(sent := s.sent + [f], producer := Offering(f), exitSent := true) else s
    case Finish =>
      if s.producer.Idle? && s.exitSent then s.(closed := true, producer := Returned) else s
    case Leave =>
      if s.producer.Idle? && !s.exitSent then s.(producer := Returned) else s
    case Offer =>
      if !s.producer.Offering? then s
      else if |s.frames| < cap then s.(frames := s.frames + [s.producer.frame], producer := Idle)
      else s.(producer := Evicting(s.producer.frame))
    case Evict =>
      if !s.producer.Evicting? then s
      else if s.frames != [] then
        s.(frames := s.frames[1..], fates := s.fates + [Evicted(s.frames[0])],
           producer := Counting(s.producer.frame, s.frames[0], |s.fates|))
      else s.(producer := Reoffering(s.producer.frame))
    case Count =>
      if !s.producer.Counting? then s
      else s.(dropped := s.dropped + |s.producer.oldest.data|, producer := Reoffering(s.producer.frame))
    case Reoffer =>
      if !s.producer.Reoffering? then s
      else if |s.frames| < cap then s.(frames := s.frames + [s.producer.frame], producer := Idle)
      else s.(producer := CountingOwn(s.producer.frame))
    case CountOwn =>
      if !s.producer.CountingOwn? then s
      else s.(dropped := s.dropped + |s.producer.frame.data|, producer := Idle)
  }

  /** The receive in `writePump`; a closed queue still drains what it holds. */
  function TakeNext(s: State): State {
    if !s.pump.Waiting? then s
    else if s.frames != [] then
      s.(frames := s.frames[1..], fates := s.fates + [Taken(s.frames[0])],
         pump := Holding(Held(s.frames[0], |s.fates|)))
    else if s.closed then s.(pump := Draining)
    else s
  }

  /** The atomic swap in `markResync`. */
  function SwapNext(s: State): State {
    match s.pump
    case Holding(held) =>
      var missed := if s.producer.Counting? && s.producer.at < held.at then Some(s.producer.at) else None;
      s.(dropped := 0,
         pump := if s.dropped == 0 then Writing(held, missed) else Marking(held, s.dropped, missed))
    case Draining =>
      s.(dropped := 0, pump := if s.dropped == 0 then Closing else DrainMarking(s.dropped))
    case _ => s
  }

  function MarkerNext(s: State, ok: bool): State {
    match s.pump
    case Marking(held, taken, missed) =>
      if ok then s.(wire := s.wire + [Marker(taken)], pump := Writing(held, missed))
      else s.(pump := Stopped(Some(held), taken))
    case DrainMarking(taken) =>
      if ok then s.(wire := s.wire + [Marker(taken)], pump := Closing)
      else s.(pump := Stopped(None, taken))
    case _ => s
  }

  function FrameNext(s: State, ok: bool): State {
    if !s.pump.Writing? then s
    else if ok then s.(wire := s.wire + [Data(s.pump.held, s.pump.missed)], pump := Waiting)
    else s.(pump := Stopped(Some(s.pump.held), 0))
  }

  function ClosureNext(s: State, ok: bool): State {
    if !s.pump.Closing? then s
    else if ok then s.(wire := s.wire + [Closure], pump := Stopped(None, 0))
    else s.(pump := Stopped(None, 0))
  }

  function PumpNext(s: State, a: PumpStep): State {
    match a
    case Take => TakeNext(s)
    case Quit => if s.pump.Waiting? && s.done then s.(pump := Stopped(None, 0)) else s
    case Swap => SwapNext(s)
    case WriteMarker(ok) => MarkerNext(s, ok)
    case WriteFrame(ok) => FrameNext(s, ok)
    case WriteClosure(ok) => ClosureNext(s, ok)
  }

  lemma PumpLeavesProducer(s: State, move: PumpStep)
    ensures var t := PumpNext(s, move);
            t.producer == s.producer && t.sent == s.sent && t.exitSent == s.exitSent
  {
  }

  /** One atomic step of either thread, or another goroutine closing the connection.
      A step whose thread is not there, or that would block, changes nothing. */
  function Next(cap: nat, s: State, a: Action): State {
    match a
    case Producing(step) => ProducerNext(cap, s, step)
    case Pumping(move) => PumpNext(s, move)
    case CloseConn => s.(done := true)
  }

  /** The state after an interleaving. */
  function Run(cap: nat, s: State, actions: seq<Action>): State {
    if actions == [] then s
    else Next(cap, Run(cap, s, actions[..|actions| - 1]), actions[|actions| - 1])
  }

  lemma RunSnoc(cap: nat, s: State, actions: seq<Action>, a: Action)
    ensures Run(cap, s, actions + [a]) == Next(cap, Run(cap, s, actions), a)
  {
    assert (actions + [a])[..|actions|] == actions;
  }

  lemma {:induction false} RunConcat(cap: nat, s: State, a: seq<Action>, b: seq<Action>)
    ensures Run(cap, s, a + b) == Run(cap, Run(cap, s, a), b)
  {
    if b == [] {
      assert a + b == a;
    } else {
      assert (a + b)[..|a + b| - 1] == a + b[..|b| - 1];
      RunConcat(cap, s, a, b[..|b| - 1]);
    }
  }

  // ---------------------------------------------------------------- byte counts

  function Bytes(frames: seq<Frame>): nat {
    if frames == [] then 0 else Bytes(frames[..|frames| - 1]) + |frames[|frames| - 1].data|
  }

  lemma {:induction false} BytesConcat(a: seq<Frame>, b: seq<Frame>)
    ensures Bytes(a + b) == Bytes(a) + Bytes(b)
  {
    if b == [] {
      assert a + b == a;
    } else {
      assert (a + b)[..|a + b| - 1] == a + b[..|b| - 1];
      BytesConcat(a, b[..|b| - 1]);
    }
  }

  /** The frames that left the queue, in order. */
  function FramesOf(fates: seq<Fate>): (frames: seq<Frame>)
    ensures |frames| == |fates|
    ensures forall i | 0 <= i < |fates| :: frames[i] == fates[i].frame
  {
    if fates == [] then [] else FramesOf(fates[..|fates| - 1]) + [fates[|fates| - 1].frame]
  }

  lemma FramesSnoc(fates: seq<Fate>, fate: Fate)
    ensures FramesOf(fates + [fate]) == FramesOf(fates) + [fate.frame]
  {
    assert (fates + [fate])[..|fates|] == fates;
  }

  /** Bytes of the evicted frames. */
  function Lost(fates: seq<Fate>): nat {
    if fates == [] then 0
    else Lost(fates[..|fates| - 1]) +
         (if fates[|fates| - 1].Evicted? then |fates[|fates| - 1].frame.data| else 0)
  }

  lemma LostSnoc(fates: seq<Fate>, fate: Fate)
    ensures Lost(fates + [fate]) == Lost(fates) + (if fate.Evicted? then |fate.frame.data| else 0)
  {
    assert (fates + [fate])[..|fates|] == fates;
  }

  /** A longer history has lost at least as much, and strictly more by any later eviction. */
  lemma {:induction false} LostMonotone(fates: seq<Fate>, k: nat)
    requires k <= |fates|
    ensures Lost(fates[..k]) <= Lost(fates)
    ensures forall m | k <= m < |fates| && fates[m].Evicted? ::
              Lost(fates[..k]) + |fates[m].frame.data| <= Lost(fates)
  {
    if k == |fates| {
      assert fates[..k] == fates;
    } else {
      var front := fates[..|fates| - 1];
      LostMonotone(front, k);
      assert front[..k] == fates[..k];
    }
  }

  /** Send positions of the frames the pump took, in order. */
  function TakenAt(fates: seq<Fate>): seq<nat> {
    if fates == [] then []
    else TakenAt(fates[..|fates| - 1]) + (if fates[|fates| - 1].Taken? then [|fates| - 1] else [])
  }

  /** Bytes of the taken frames. */
  function TakenBytes(fates: seq<Fate>): nat {
    if fates == [] then 0
    else TakenBytes(fates[..|fates| - 1]) +
         (if fates[|fates| - 1].Taken? then |fates[|fates| - 1].frame.data| else 0)
  }

  lemma TakenSnoc(fates: seq<Fate>, fate: Fate)
    ensures TakenBytes(fates + [fate]) == TakenBytes(fates) + (if fate.Taken? then |fate.frame.data| else 0)
    ensures TakenAt(fates + [fate]) == TakenAt(fates) + (if fate.Taken? then [|fates|] else [])
  {
    assert (fates + [fate])[..|fates|] == fates;
  }

  /** The taken positions are increasing, and they are all of them. */
  lemma {:induction false} TakenAtOrdered(fates: seq<Fate>)
    ensures forall i, j | 0 <= i < j < |TakenAt(fates)| :: TakenAt(fates)[i] < TakenAt(fates)[j]
    ensures forall k :: k in TakenAt(fates) <==> 0 <= k < |fates| && fates[k].Taken?
  {
    if fates != [] {
      var front := fates[..|fates| - 1];
      TakenAtOrdered(front);
      assert forall i | 0 <= i < |TakenAt(front)| :: TakenAt(front)[i] in TakenAt(front);
    }
  }

  function Reported(wire: seq<Wire>): nat {
    if wire == [] then 0
    else Reported(wire[..|wire| - 1]) +
         (if wire[|wire| - 1].Marker? then wire[|wire| - 1].bytes else 0)
  }

  function WrittenAt(wire: seq<Wire>): seq<nat> {
    if wire == [] then []
    else WrittenAt(wire[..|wire| - 1]) + (if wire[|wire| - 1].Data? then [wire[|wire| - 1].held.at] else [])
  }

  function WrittenBytes(wire: seq<Wire>): nat {
    if wire == [] then 0
    else WrittenBytes(wire[..|wire| - 1]) +
         (if wire[|wire| - 1].Data? then |wire[|wire| - 1].held.frame.data| else 0)
  }

  lemma WireSnoc(wire: seq<Wire>, w: Wire)
    ensures Reported(wire + [w]) == Reported(wire) + (if w.Marker? then w.bytes else 0)
    ensures WrittenAt(wire + [w]) == WrittenAt(wire) + (if w.Data? then [w.held.at] else [])
    ensures WrittenBytes(wire + [w]) == WrittenBytes(wire) + (if w.Data? then |w.held.frame.data| else 0)
  {
    assert (wire + [w])[..|wire|] == wire;
  }

  // ---------------------------------------------------------------- what each thread holds

  /** Frames handed to send that are not in the queue yet. */
  function Pending(p: Producer): seq<Frame> {
    match p
    case Offering(f) => [f]
    case Evicting(f) => [f]
    case Counting(f, _, _) => [f]
    case Reoffering(f) => [f]
    case CountingOwn(f) => [f]
    case _ => []
  }

  /** Bytes evicted but not counted yet. */
  function Uncounted(p: Producer): nat {
    if p.Counting? then |p.oldest.data| else 0
  }

  /** The frame the pump took and has not written, if any. */
  function InHand(p: Pump): Option<Held> {
    match p
    case Holding(held) => Some(held)
    case Marking(held, _, _) => Some(held)
    case Writing(held, _) => Some(held)
    case Stopped(left, _) => left
    case _ => None
  }

  function PositionOf(hand: Option<Held>): seq<nat> {
    if hand.Some? then [hand.value.at] else []
  }

  function BytesOf(hand: Option<Held>): nat {
    if hand.Some? then |hand.value.frame.data| else 0
  }

  /** Lost bytes the pump took off the counter and has not reported. */
  function Unreported(p: Pump): nat {
    match p
    case Marking(_, taken, _) => taken
    case DrainMarking(taken) => taken
    case Stopped(_, unreported) => unreported
    case _ => 0
  }
}
