/** What every interleaving of the forwarder and the write pump keeps. */
module StreamSafety {
  import opened Sequences
  import opened StreamProtocol

  /** The frames sent are, in order, those that left the queue, those in it, and the one being sent. */
  ghost predicate QueueInOrder(cap: nat, sent: seq<Frame>, fates: seq<Fate>, frames: seq<Frame>,
                               producer: Producer, closed: bool, exitSent: bool) {
    && sent == FramesOf(fates) + frames + Pending(producer)
    && |frames| <= cap
    && (producer.Counting? || producer.Reoffering? ==> |frames| < cap)
    && !producer.CountingOwn?
    && (closed ==> producer.Returned? && exitSent)
    && (exitSent ==> sent != [])
    && (forall i | 0 <= i < |fates| && fates[i].Evicted? :: i + 1 < |sent|)
  }

  ghost predicate IsTaken(held: Held, fates: seq<Fate>) {
    held.at < |fates| && fates[held.at] == Taken(held.frame)
  }

  /** Every frame taken is written, in order, except the one in hand. */
  ghost predicate TakenThenWritten(fates: seq<Fate>, wire: seq<Wire>, pump: Pump) {
    && TakenAt(fates) == WrittenAt(wire) + PositionOf(InHand(pump))
    && TakenBytes(fates) == WrittenBytes(wire) + BytesOf(InHand(pump))
    && (InHand(pump).Some? ==> IsTaken(InHand(pump).value, fates))
    && (forall w | 0 <= w < |wire| && wire[w].Data? :: IsTaken(wire[w].held, fates))
  }

  /** Every evicted byte is reported, about to be, on the counter, or in the producer's hand. */
  ghost predicate LossAccounted(fates: seq<Fate>, wire: seq<Wire>, pump: Pump, dropped: nat, producer: Producer) {
    && Lost(fates) == Reported(wire) + Unreported(pump) + dropped + Uncounted(producer)
    && (producer.Counting? ==>
          && producer.at < |fates|
          && fates[producer.at] == Evicted(producer.oldest)
          && forall m | producer.at < m < |fates| :: fates[m].Taken?)
  }

  /** Bytes of the single evicted frame a write may run ahead of. */
  function MissedBytes(fates: seq<Fate>, missed: Option<nat>): nat
    requires missed.Some? ==> missed.value < |fates|
  {
    if missed.Some? then |fates[missed.value].frame.data| else 0
  }

  /** With `reported` bytes reported, the loss ahead of position `at` is covered, but for the one
      evicted frame missed, if there is one: then it is all that is not covered. */
  ghost predicate Covered(fates: seq<Fate>, at: nat, missed: Option<nat>, reported: nat) {
    && at <= |fates|
    && (missed.Some? ==> missed.value < at && fates[missed.value].Evicted?)
    && (if missed.Some? then Lost(fates[..at]) == reported + MissedBytes(fates, missed) else Lost(fates[..at]) <= reported)
  }

  ghost predicate ReportedAhead(fates: seq<Fate>, wire: seq<Wire>, pump: Pump) {
    && (pump.Marking? || pump.Writing? ==>
          Covered(fates, pump.held.at, pump.missed, Reported(wire) + Unreported(pump)))
    && (forall w | 0 <= w < |wire| && wire[w].Data? ::
          Covered(fates, wire[w].held.at, wire[w].missed, Reported(wire[..w])))
  }

  /** The exit frame has left the queue, so nothing can be evicted any more. */
  ghost predicate AllTaken(s: State) {
    s.exitSent && Pending(s.producer) == [] && s.frames == []
  }

  ghost predicate EndsCleanly(s: State) {
    && (AllTaken(s) && !s.pump.Holding? ==> s.dropped == 0)
    && (AllTaken(s) && (s.pump.Waiting? || s.pump.Draining? || s.pump.Closing?) ==>
          s.wire != [] && IsLastFrame(s.wire[|s.wire| - 1], s.sent))
    && !s.pump.DrainMarking?
    && (s.pump.Draining? || s.pump.Closing? ==> s.closed && s.frames == [])
  }

  ghost predicate IsLastFrame(w: Wire, sent: seq<Frame>) {
    w.Data? && w.held.at + 1 == |sent|
  }

  /** A closure message is the last write, right behind the last frame sent, on an emptied queue. */
  ghost predicate ClosureLast(wire: seq<Wire>, pump: Pump, closed: bool, frames: seq<Frame>, sent: seq<Frame>) {
    forall w | 0 <= w < |wire| && wire[w].Closure? ::
      && w + 1 == |wire| && pump == Stopped(None, 0) && closed && frames == []
      && w > 0 && IsLastFrame(wire[w - 1], sent)
  }

  ghost predicate Accounted(cap: nat, s: State) {
    && QueueInOrder(cap, s.sent, s.fates, s.frames, s.producer, s.closed, s.exitSent)
    && TakenThenWritten(s.fates, s.wire, s.pump)
    && LossAccounted(s.fates, s.wire, s.pump, s.dropped, s.producer)
    && ReportedAhead(s.fates, s.wire, s.pump)
  }

  ghost predicate Inv(cap: nat, s: State) {
    && Accounted(cap, s)
    && EndsCleanly(s)
    && ClosureLast(s.wire, s.pump, s.closed, s.frames, s.sent)
  }

  // ---------------------------------------------------------------- what one more event changes

  lemma QueueLosesHead(cap: nat, s: State, fate: Fate, producer: Producer)
    requires QueueInOrder(cap, s.sent, s.fates, s.frames, s.producer, s.closed, s.exitSent)
    requires s.frames != [] && fate.frame == s.frames[0]
    requires fate.Evicted? ==> |Pending(s.producer)| == 1
    requires Pending(producer) == Pending(s.producer)
    requires producer == s.producer || (producer.Counting? && !s.closed)
    ensures QueueInOrder(cap, s.sent, s.fates + [fate], s.frames[1..], producer, s.closed, s.exitSent)
  {
    FramesSnoc(s.fates, fate);
    assert s.frames == [s.frames[0]] + s.frames[1..];
    assert FramesOf(s.fates + [fate]) + s.frames[1..] == FramesOf(s.fates) + s.frames;
  }

  lemma CoveredGrows(fates: seq<Fate>, fate: Fate, at: nat, missed: Option<nat>, reported: nat)
    requires Covered(fates, at, missed, reported)
    ensures Covered(fates + [fate], at, missed, reported)
  {
    assert (fates + [fate])[..at] == fates[..at];
  }

  /** The pump takes the oldest frame. */
  lemma TakenGrows(fates: seq<Fate>, f: Frame, wire: seq<Wire>)
    requires TakenThenWritten(fates, wire, Waiting)
    ensures TakenThenWritten(fates + [Taken(f)], wire, Holding(Held(f, |fates|)))
  {
    TakenSnoc(fates, Taken(f));
  }

  lemma LossUnmoved(fates: seq<Fate>, f: Frame, wire: seq<Wire>, dropped: nat, producer: Producer)
    requires LossAccounted(fates, wire, Waiting, dropped, producer)
    ensures LossAccounted(fates + [Taken(f)], wire, Holding(Held(f, |fates|)), dropped, producer)
  {
    LostSnoc(fates, Taken(f));
  }

  /** More frames leaving the queue uncover nothing. */
  lemma ReportedAheadGrows(fates: seq<Fate>, fate: Fate, wire: seq<Wire>, pump: Pump)
    requires ReportedAhead(fates, wire, pump)
    ensures ReportedAhead(fates + [fate], wire, pump)
  {
    forall w | 0 <= w < |wire| && wire[w].Data?
      ensures Covered(fates + [fate], wire[w].held.at, wire[w].missed, Reported(wire[..w]))
    {
      CoveredGrows(fates, fate, wire[w].held.at, wire[w].missed, Reported(wire[..w]));
    }
    if pump.Marking? || pump.Writing? {
      CoveredGrows(fates, fate, pump.held.at, pump.missed, Reported(wire) + Unreported(pump));
    }
  }

  /** Taking the counter covers everything lost ahead of the held frame,
      except an eviction the producer is still holding. */
  lemma SwapCovers(fates: seq<Fate>, wire: seq<Wire>, pump: Pump, dropped: nat, producer: Producer)
    requires LossAccounted(fates, wire, pump, dropped, producer) && pump.Holding? && pump.held.at < |fates|
    ensures Covered(fates, pump.held.at,
                    if producer.Counting? && producer.at < pump.held.at then Some(producer.at) else None,
                    Reported(wire) + dropped)
  {
    LostMonotone(fates, pump.held.at);
    if producer.Counting? && producer.at < pump.held.at { NothingLostSince(fates, pump.held.at); }
  }

  /** Frames that were all taken lost nothing. */
  lemma {:induction false} NothingLostSince(fates: seq<Fate>, k: nat)
    requires k <= |fates| && forall m | k <= m < |fates| :: fates[m].Taken?
    ensures Lost(fates[..k]) == Lost(fates)
  {
    if k == |fates| {
      assert fates[..k] == fates;
    } else {
      assert fates[..|fates| - 1][..k] == fates[..k];
      NothingLostSince(fates[..|fates| - 1], k);
    }
  }

  /** Reports ahead of earlier writes are not disturbed by a later write. */
  lemma ReportedAheadSnoc(fates: seq<Fate>, wire: seq<Wire>, w: Wire, pump: Pump)
    requires forall k | 0 <= k < |wire| && wire[k].Data? ::
               Covered(fates, wire[k].held.at, wire[k].missed, Reported(wire[..k]))
    requires w.Data? ==> Covered(fates, w.held.at, w.missed, Reported(wire))
    requires pump.Marking? || pump.Writing? ==>
               Covered(fates, pump.held.at, pump.missed, Reported(wire + [w]) + Unreported(pump))
    ensures ReportedAhead(fates, wire + [w], pump)
  {
    assert forall k | 0 <= k <= |wire| :: (wire + [w])[..k] == wire[..k];
    assert wire[..|wire|] == wire;
  }

  lemma FrameWritten(fates: seq<Fate>, wire: seq<Wire>, held: Held, missed: Option<nat>)
    requires TakenThenWritten(fates, wire, Writing(held, missed))
    ensures TakenThenWritten(fates, wire + [Data(held, missed)], Waiting)
  {
    WireSnoc(wire, Data(held, missed));
  }

  lemma ControlWritten(fates: seq<Fate>, wire: seq<Wire>, w: Wire, pump: Pump, after: Pump)
    requires TakenThenWritten(fates, wire, pump) && !w.Data? && InHand(after) == InHand(pump)
    ensures TakenThenWritten(fates, wire + [w], after)
  {
    WireSnoc(wire, w);
  }

  /** When everything has been taken, the frame in hand is the last one sent. */
  lemma LastInHand(cap: nat, s: State)
    requires Inv(cap, s) && AllTaken(s)
    requires InHand(s.pump).Some?
    ensures InHand(s.pump).value.at + 1 == |s.sent|
  {
    TakenAtOrdered(s.fates);
    var n, taken := |s.sent|, TakenAt(s.fates);
    assert |s.fates| == n && s.fates[n - 1].Taken?;
    assert n - 1 in taken;
    assert taken[|taken| - 1] == InHand(s.pump).value.at;
  }

  // ---------------------------------------------------------------- one step at a time

  lemma EvictLeavesTaken(fates: seq<Fate>, f: Frame, wire: seq<Wire>, pump: Pump)
    requires TakenThenWritten(fates, wire, pump)
    ensures TakenThenWritten(fates + [Evicted(f)], wire, pump)
  {
    TakenSnoc(fates, Evicted(f));
  }

  lemma EvictAccounted(fates: seq<Fate>, oldest: Frame, wire: seq<Wire>, pump: Pump, dropped: nat, producer: Producer, f: Frame)
    requires LossAccounted(fates, wire, pump, dropped, producer) && producer.Evicting?
    ensures LossAccounted(fates + [Evicted(oldest)], wire, pump, dropped, Counting(f, oldest, |fates|))
  {
    LostSnoc(fates, Evicted(oldest));
  }

  lemma EvictEnds(s: State)
    requires Ending(s) && s.producer.Evicting?
    ensures var t := ProducerNext(0, s, Evict);
            EndsCleanly(t) && ClosureLast(t.wire, t.pump, t.closed, t.frames, t.sent)
  {
    var t := ProducerNext(0, s, Evict);
    assert !s.closed && !AllTaken(t);
  }

  lemma EvictKeeps(cap: nat, s: State)
    requires cap > 0 && Inv(cap, s)
    ensures Inv(cap, ProducerNext(cap, s, Evict))
  {
    if s.producer.Evicting? && s.frames != [] {
      var fate, f := Evicted(s.frames[0]), s.producer.frame;
      QueueLosesHead(cap, s, fate, Counting(f, s.frames[0], |s.fates|));
      EvictLeavesTaken(s.fates, s.frames[0], s.wire, s.pump);
      EvictAccounted(s.fates, s.frames[0], s.wire, s.pump, s.dropped, s.producer, f);
      ReportedAheadGrows(s.fates, fate, s.wire, s.pump);
      EvictEnds(s);
    }
  }

  /** A frame enters `send`. */
  lemma SendQueues(cap: nat, s: State, f: Frame, exit: bool)
    requires QueueInOrder(cap, s.sent, s.fates, s.frames, s.producer, s.closed, s.exitSent) && s.producer.Idle?
    ensures QueueInOrder(cap, s.sent + [f], s.fates, s.frames, Offering(f), s.closed, exit)
  {
    assert s.sent + [f] == FramesOf(s.fates) + s.frames + [f];
  }

  /** It enters the queue. */
  lemma PushQueues(cap: nat, s: State)
    requires QueueInOrder(cap, s.sent, s.fates, s.frames, s.producer, s.closed, s.exitSent)
    requires |Pending(s.producer)| == 1 && |s.frames| < cap
    ensures QueueInOrder(cap, s.sent, s.fates, s.frames + Pending(s.producer), Idle, s.closed, s.exitSent)
  {
    Assoc(FramesOf(s.fates), s.frames, Pending(s.producer));
    assert s.sent == FramesOf(s.fates) + (s.frames + Pending(s.producer)) + [];
  }

  lemma OtherProducerStepsQueue(cap: nat, s: State, a: ProducerStep)
    requires cap > 0 && !a.Evict?
    requires QueueInOrder(cap, s.sent, s.fates, s.frames, s.producer, s.closed, s.exitSent)
    ensures var t := ProducerNext(cap, s, a);
            QueueInOrder(cap, t.sent, t.fates, t.frames, t.producer, t.closed, t.exitSent)
  {
    match a
    case Send(f) => if s.producer.Idle? && !s.exitSent { SendQueues(cap, s, f, false); }
    case SendExit(f) => if s.producer.Idle? && !s.exitSent { SendQueues(cap, s, f, true); }
    case Offer => if s.producer.Offering? && |s.frames| < cap { PushQueues(cap, s); }
    case Reoffer => if s.producer.Reoffering? { PushQueues(cap, s); }
    case _ =>
  }

  lemma LossMoves(fates: seq<Fate>, wire: seq<Wire>, pump: Pump, dropped: nat, producer: Producer, counted: nat, after: Producer)
    requires LossAccounted(fates, wire, pump, dropped, producer)
    requires counted + Uncounted(after) == dropped + Uncounted(producer) && (after.Counting? ==> after == producer)
    ensures LossAccounted(fates, wire, pump, counted, after)
  {
  }

  /** What the producer evicted and what it counted balance. */
  lemma OtherProducerStepsLoss(cap: nat, s: State, a: ProducerStep)
    requires !a.Evict? && !s.producer.CountingOwn?
    ensures var t := ProducerNext(cap, s, a);
            && t.fates == s.fates && t.wire == s.wire && t.pump == s.pump
            && t.dropped + Uncounted(t.producer) == s.dropped + Uncounted(s.producer)
            && (t.producer.Counting? ==> t.producer == s.producer)
  {
  }

  /** A send in progress is a frame that has not been taken. */
  lemma OtherProducerStepsSettled(cap: nat, s: State, a: ProducerStep)
    requires !a.Evict? && !s.producer.CountingOwn? && (s.closed ==> s.producer.Returned?)
    ensures var t := ProducerNext(cap, s, a);
            && t.pump == s.pump && t.wire == s.wire
            && (s.closed ==> t.closed && t.frames == s.frames && t.sent == s.sent)
            && (AllTaken(t) ==> AllTaken(s) && t.dropped == s.dropped && t.sent == s.sent)
  {
  }

  lemma EndsUndisturbed(s: State, t: State)
    requires EndsCleanly(s) && ClosureLast(s.wire, s.pump, s.closed, s.frames, s.sent)
    requires t.pump == s.pump && t.wire == s.wire
    requires s.closed ==> t.closed && t.frames == s.frames && t.sent == s.sent
    requires AllTaken(t) ==> AllTaken(s) && t.dropped == s.dropped && t.sent == s.sent
    ensures EndsCleanly(t) && ClosureLast(t.wire, t.pump, t.closed, t.frames, t.sent)
  {
  }

  lemma TakeAccounted(cap: nat, s: State)
    requires Accounted(cap, s)
    ensures Accounted(cap, TakeNext(s))
  {
    if s.pump.Waiting? && s.frames != [] {
      var f := s.frames[0];
      QueueLosesHead(cap, s, Taken(f), s.producer);
      TakenGrows(s.fates, f, s.wire);
      LossUnmoved(s.fates, f, s.wire, s.dropped, s.producer);
      ReportedAheadGrows(s.fates, Taken(f), s.wire, s.pump);
    }
  }

  ghost predicate Ending(s: State) {
    && EndsCleanly(s)
    && ClosureLast(s.wire, s.pump, s.closed, s.frames, s.sent)
    && (s.closed ==> s.exitSent && Pending(s.producer) == [])
  }

  lemma TakeEnds(s: State)
    requires Ending(s)
    ensures EndsCleanly(TakeNext(s))
    ensures var t := TakeNext(s); ClosureLast(t.wire, t.pump, t.closed, t.frames, t.sent)
  {
  }

  /** Taking the counter moves what is on it into the pump's hands. */
  lemma SwapAccounted(fates: seq<Fate>, wire: seq<Wire>, held: Held, dropped: nat, producer: Producer, missed: Option<nat>)
    requires TakenThenWritten(fates, wire, Holding(held)) && LossAccounted(fates, wire, Holding(held), dropped, producer)
    ensures var after := if dropped == 0 then Writing(held, missed) else Marking(held, dropped, missed);
            TakenThenWritten(fates, wire, after) && LossAccounted(fates, wire, after, 0, producer)
  {
  }

  lemma SwapReported(fates: seq<Fate>, wire: seq<Wire>, held: Held, dropped: nat, producer: Producer)
    requires ReportedAhead(fates, wire, Holding(held)) && held.at < |fates|
    requires LossAccounted(fates, wire, Holding(held), dropped, producer)
    ensures var missed := if producer.Counting? && producer.at < held.at then Some(producer.at) else None;
            ReportedAhead(fates, wire, if dropped == 0 then Writing(held, missed) else Marking(held, dropped, missed))
  {
    SwapCovers(fates, wire, Holding(held), dropped, producer);
  }

  lemma SwapEnds(s: State)
    requires Ending(s) && s.pump.Holding?
    ensures EndsCleanly(SwapNext(s))
    ensures var t := SwapNext(s); ClosureLast(t.wire, t.pump, t.closed, t.frames, t.sent)
  {
  }

  lemma SwapAtDrain(cap: nat, s: State)
    requires Inv(cap, s) && s.pump.Draining?
    ensures Inv(cap, SwapNext(s))
  {
    assert AllTaken(s);
    assert SwapNext(s) == s.(pump := Closing);
  }

  lemma SwapKeeps(cap: nat, s: State)
    requires Inv(cap, s)
    ensures Inv(cap, SwapNext(s))
  {
    match s.pump
    case Holding(held) =>
      var missed := if s.producer.Counting? && s.producer.at < held.at then Some(s.producer.at) else None;
      SwapAccounted(s.fates, s.wire, held, s.dropped, s.producer, missed);
      SwapReported(s.fates, s.wire, held, s.dropped, s.producer);
      SwapEnds(s);
    case Draining => SwapAtDrain(cap, s);
    case _ =>
  }

  /** A pump that gives up holds on to what it held. */
  lemma PumpStops(cap: nat, s: State, after: Pump)
    requires Accounted(cap, s) && after.Stopped? && InHand(after) == InHand(s.pump) && Unreported(after) == Unreported(s.pump)
    ensures Accounted(cap, s.(pump := after))
  {
  }

  lemma MarkerReported(fates: seq<Fate>, wire: seq<Wire>, held: Held, taken: nat, missed: Option<nat>)
    requires ReportedAhead(fates, wire, Marking(held, taken, missed))
    ensures ReportedAhead(fates, wire + [Marker(taken)], Writing(held, missed))
  {
    WireSnoc(wire, Marker(taken));
    ReportedAheadSnoc(fates, wire, Marker(taken), Writing(held, missed));
  }

  /** A write moves what the pump held unreported onto the wire. */
  lemma WriteAccounted(fates: seq<Fate>, wire: seq<Wire>, pump: Pump, dropped: nat, producer: Producer, w: Wire, after: Pump)
    requires LossAccounted(fates, wire, pump, dropped, producer)
    requires Unreported(pump) == Unreported(after) + (if w.Marker? then w.bytes else 0)
    ensures LossAccounted(fates, wire + [w], after, dropped, producer)
  {
    WireSnoc(wire, w);
  }

  lemma MarkerAccounted(cap: nat, s: State, ok: bool)
    requires Accounted(cap, s) && !s.pump.DrainMarking?
    ensures Accounted(cap, MarkerNext(s, ok))
  {
    if s.pump.Marking? && ok {
      var w, after := Marker(s.pump.taken), Writing(s.pump.held, s.pump.missed);
      ControlWritten(s.fates, s.wire, w, s.pump, after);
      WriteAccounted(s.fates, s.wire, s.pump, s.dropped, s.producer, w, after);
      MarkerReported(s.fates, s.wire, s.pump.held, s.pump.taken, s.pump.missed);
    } else if s.pump.Marking? {
      PumpStops(cap, s, Stopped(Some(s.pump.held), s.pump.taken));
    }
  }

  lemma MarkerEnds(s: State, ok: bool)
    requires Ending(s)
    ensures EndsCleanly(MarkerNext(s, ok))
    ensures var t := MarkerNext(s, ok); ClosureLast(t.wire, t.pump, t.closed, t.frames, t.sent)
  {
  }

  lemma FrameReported(fates: seq<Fate>, wire: seq<Wire>, held: Held, missed: Option<nat>)
    requires ReportedAhead(fates, wire, Writing(held, missed))
    ensures ReportedAhead(fates, wire + [Data(held, missed)], Waiting)
  {
    ReportedAheadSnoc(fates, wire, Data(held, missed), Waiting);
  }

  lemma FrameAccounted(cap: nat, s: State, ok: bool)
    requires Accounted(cap, s)
    ensures Accounted(cap, FrameNext(s, ok))
  {
    if s.pump.Writing? && ok {
      FrameWritten(s.fates, s.wire, s.pump.held, s.pump.missed);
      WriteAccounted(s.fates, s.wire, s.pump, s.dropped, s.producer, Data(s.pump.held, s.pump.missed), Waiting);
      FrameReported(s.fates, s.wire, s.pump.held, s.pump.missed);
    } else if s.pump.Writing? {
      PumpStops(cap, s, Stopped(Some(s.pump.held), 0));
    }
  }

  lemma FrameEnds(cap: nat, s: State, ok: bool)
    requires Inv(cap, s)
    ensures EndsCleanly(FrameNext(s, ok))
    ensures var t := FrameNext(s, ok); ClosureLast(t.wire, t.pump, t.closed, t.frames, t.sent)
  {
    if s.pump.Writing? && AllTaken(s) { LastInHand(cap, s); }
  }

  lemma ClosureAccounted(cap: nat, s: State, ok: bool)
    requires Accounted(cap, s)
    ensures Accounted(cap, ClosureNext(s, ok))
  {
    if s.pump.Closing? && ok {
      var after := Stopped(None, 0);
      ControlWritten(s.fates, s.wire, Closure, Closing, after);
      WriteAccounted(s.fates, s.wire, Closing, s.dropped, s.producer, Closure, after);
      ReportedAheadSnoc(s.fates, s.wire, Closure, after);
    } else if s.pump.Closing? {
      PumpStops(cap, s, Stopped(None, 0));
    }
  }

  lemma ClosureEnds(s: State, ok: bool)
    requires Ending(s)
    ensures EndsCleanly(ClosureNext(s, ok))
    ensures var t := ClosureNext(s, ok); ClosureLast(t.wire, t.pump, t.closed, t.frames, t.sent)
  {
  }

  lemma ProducerKeeps(cap: nat, s: State, step: ProducerStep)
    requires cap > 0 && Inv(cap, s)
    ensures Inv(cap, ProducerNext(cap, s, step))
  {
    if step.Evict? {
      EvictKeeps(cap, s);
    } else {
      OtherProducerStepsQueue(cap, s, step);
      var t := ProducerNext(cap, s, step);
      OtherProducerStepsLoss(cap, s, step);
      LossMoves(s.fates, s.wire, s.pump, s.dropped, s.producer, t.dropped, t.producer);
      OtherProducerStepsSettled(cap, s, step);
      EndsUndisturbed(s, ProducerNext(cap, s, step));
    }
  }

  lemma QuitKeeps(cap: nat, s: State)
    requires Inv(cap, s)
    ensures Inv(cap, PumpNext(s, Quit))
  {
    if s.pump.Waiting? && s.done { PumpStops(cap, s, Stopped(None, 0)); }
  }

  lemma PumpKeeps(cap: nat, s: State, move: PumpStep)
    requires Inv(cap, s)
    ensures Inv(cap, PumpNext(s, move))
  {
    match move
    case Take => TakeAccounted(cap, s); TakeEnds(s);
    case Quit => QuitKeeps(cap, s);
    case Swap => SwapKeeps(cap, s);
    case WriteMarker(ok) => MarkerAccounted(cap, s, ok); MarkerEnds(s, ok);
    case WriteFrame(ok) => FrameAccounted(cap, s, ok); FrameEnds(cap, s, ok);
    case WriteClosure(ok) => ClosureAccounted(cap, s, ok); ClosureEnds(s, ok);
  }

  lemma InvKept(cap: nat, s: State, a: Action)
    requires cap > 0 && Inv(cap, s)
    ensures Inv(cap, Next(cap, s, a))
  {
    match a
    case Producing(step) => ProducerKeeps(cap, s, step);
    case Pumping(move) => PumpKeeps(cap, s, move);
    case CloseConn =>
  }

  /** The invariant holds after every interleaving. */
  lemma {:induction false} InvAlways(cap: nat, actions: seq<Action>)
    requires cap > 0
    ensures Inv(cap, Run(cap, INITIAL, actions))
  {
    if actions == [] {
    } else {
      InvAlways(cap, actions[..|actions| - 1]);
      InvKept(cap, Run(cap, INITIAL, actions[..|actions| - 1]), actions[|actions| - 1]);
    }
  }

  // ---------------------------------------------------------------- conservation

  /** Of the frames that left the queue, the evicted and the taken add up. */
  lemma {:induction false} FatesAddUp(fates: seq<Fate>)
    ensures Bytes(FramesOf(fates)) == Lost(fates) + TakenBytes(fates)
  {
    if fates != [] {
      var front := fates[..|fates| - 1];
      FatesAddUp(front);
      assert FramesOf(fates)[..|front|] == FramesOf(front);
    }
  }

  /** Bytes sent are bytes written, queued, in the producer's or the pump's hands,
      on the counter, or reported by a marker: none vanishes and none is counted twice. */
  lemma {:induction false} BytesConserved(cap: nat, actions: seq<Action>)
    requires cap > 0
    ensures var s := Run(cap, INITIAL, actions);
            Bytes(s.sent) == WrittenBytes(s.wire) + Bytes(s.frames)
                             + BytesOf(InHand(s.pump)) + Unreported(s.pump)
                             + Bytes(Pending(s.producer)) + Uncounted(s.producer)
                             + s.dropped + Reported(s.wire)
  {
    InvAlways(cap, actions);
    var s := Run(cap, INITIAL, actions);
    BytesConcat(FramesOf(s.fates) + s.frames, Pending(s.producer));
    BytesConcat(FramesOf(s.fates), s.frames);
    FatesAddUp(s.fates);
  }

  // ---------------------------------------------------------------- what a client can rely on

  /** The queue is always a contiguous run of the frames sent, ending at the newest one queued:
      the second push always finds room, so the newest frame is never the one lost, and nothing
      is pushed to a closed queue. */
  lemma {:induction false} QueueIsSuffix(cap: nat, actions: seq<Action>)
    requires cap > 0
    ensures var s := Run(cap, INITIAL, actions);
            && |s.fates| + |s.frames| + |Pending(s.producer)| == |s.sent|
            && s.frames == s.sent[|s.fates|..|s.sent| - |Pending(s.producer)|]
            && |s.frames| <= cap
            && (s.producer.Reoffering? ==> |s.frames| < cap)
            && !s.producer.CountingOwn?
            && (s.closed ==> Pending(s.producer) == [])
  {
    InvAlways(cap, actions);
    var s := Run(cap, INITIAL, actions);
    assert s.sent[|s.fates|..|s.sent| - |Pending(s.producer)|] == s.frames;
  }

  /** Frames reach the socket in send order, unaltered, each at most once. */
  lemma WrittenInOrder(cap: nat, actions: seq<Action>, v: nat, w: nat)
    requires cap > 0
    requires var s := Run(cap, INITIAL, actions); v <= w < |s.wire| && s.wire[v].Data? && s.wire[w].Data?
    ensures var s := Run(cap, INITIAL, actions);
            && s.wire[w].held.at < |s.sent|
            && s.wire[w].held.frame == s.sent[s.wire[w].held.at]
            && (v < w ==> s.wire[v].held.at < s.wire[w].held.at)
  {
    InvAlways(cap, actions);
    var s := Run(cap, INITIAL, actions);
    assert FramesOf(s.fates)[s.wire[w].held.at] == s.wire[w].held.frame;
    if v < w {
      TakenAtOrdered(s.fates);
      WrittenPositions(s.wire, v, w);
      var i, j :| 0 <= i < j < |WrittenAt(s.wire)|
                  && WrittenAt(s.wire)[i] == s.wire[v].held.at && WrittenAt(s.wire)[j] == s.wire[w].held.at;
      assert TakenAt(s.fates)[i] == s.wire[v].held.at && TakenAt(s.fates)[j] == s.wire[w].held.at;
    }
  }

  lemma {:induction false} WrittenPositions(wire: seq<Wire>, v: nat, w: nat)
    requires v < w < |wire| && wire[v].Data? && wire[w].Data?
    ensures exists i, j :: 0 <= i < j < |WrittenAt(wire)|
                           && WrittenAt(wire)[i] == wire[v].held.at && WrittenAt(wire)[j] == wire[w].held.at
  {
    var front := wire[..|wire| - 1];
    if w == |wire| - 1 {
      WrittenPosition(front, v);
      var i :| 0 <= i < |WrittenAt(front)| && WrittenAt(front)[i] == wire[v].held.at;
      assert WrittenAt(wire)[i] == wire[v].held.at && WrittenAt(wire)[|WrittenAt(front)|] == wire[w].held.at;
    } else {
      WrittenPositions(front, v, w);
      var i, j :| 0 <= i < j < |WrittenAt(front)|
                  && WrittenAt(front)[i] == wire[v].held.at && WrittenAt(front)[j] == wire[w].held.at;
      assert WrittenAt(wire)[i] == wire[v].held.at && WrittenAt(wire)[j] == wire[w].held.at;
    }
  }

  lemma {:induction false} WrittenPosition(wire: seq<Wire>, v: nat)
    requires v < |wire| && wire[v].Data?
    ensures exists i :: 0 <= i < |WrittenAt(wire)| && WrittenAt(wire)[i] == wire[v].held.at
  {
    var front := wire[..|wire| - 1];
    if v == |wire| - 1 {
      assert WrittenAt(wire)[|WrittenAt(front)|] == wire[v].held.at;
    } else {
      WrittenPosition(front, v);
      var i :| 0 <= i < |WrittenAt(front)| && WrittenAt(front)[i] == wire[v].held.at;
      assert WrittenAt(wire)[i] == wire[v].held.at;
    }
  }

  /** When a frame is written, every byte lost ahead of it has been reported, except at most the
      one evicted frame the producer held, uncounted, when the pump emptied the counter. All of it
      has been reported exactly when there was no such frame, or it was empty. */
  lemma LossReportedAhead(cap: nat, actions: seq<Action>, w: nat)
    requires cap > 0
    requires w < |Run(cap, INITIAL, actions).wire| && Run(cap, INITIAL, actions).wire[w].Data?
    ensures var s := Run(cap, INITIAL, actions);
            && s.wire[w].held.at < |s.fates|
            && Covered(s.fates, s.wire[w].held.at, s.wire[w].missed, Reported(s.wire[..w]))
            && (Lost(s.fates[..s.wire[w].held.at]) <= Reported(s.wire[..w]) <==>
                  s.wire[w].missed.None? || MissedBytes(s.fates, s.wire[w].missed) == 0)
  {
    InvAlways(cap, actions);
    var s := Run(cap, INITIAL, actions);
    assert IsTaken(s.wire[w].held, s.fates);
  }

  /** What `missed` records: when the counter was taken for a frame, the producer stood between
      evicting an earlier frame and counting it. */
  lemma MissedIsTheProducers(s: State)
    requires s.pump.Holding?
    ensures var p := SwapNext(s).pump;
            && (p.Marking? || p.Writing?)
            && (p.missed.Some? <==> s.producer.Counting? && s.producer.at < s.pump.held.at)
            && (p.missed.Some? ==> p.missed.value == s.producer.at)
  {
  }

  /** The run in which a frame goes out ahead of the report of what was lost before it: the queue
      is full, the producer evicts the first frame and has not counted it, and the pump takes the
      second, finds the counter at zero, and writes. */
  function EarlyWrite(f0: Frame, f1: Frame, f2: Frame): seq<Action> {
    [Producing(Send(f0)), Producing(Offer), Producing(Send(f1)), Producing(Offer), Producing(Send(f2)), Producing(Offer),
     Producing(Evict), Pumping(Take), Pumping(Swap), Pumping(WriteFrame(true))]
  }

  /** The queue at capacity two after the producer's half of that run. */
  lemma EvictedUncounted(f0: Frame, f1: Frame, f2: Frame)
    ensures Run(2, INITIAL, EarlyWrite(f0, f1, f2)[..7]) ==
            INITIAL.(frames := [f1], producer := Counting(f2, f0, 0), sent := [f0, f1, f2], fates := [Evicted(f0)])
  {
    var all := EarlyWrite(f0, f1, f2);
    var one := INITIAL.(sent := [f0], frames := [f0]);
    assert all[..0] == [];
    forall i | 0 <= i < 7 ensures Run(2, INITIAL, all[..i + 1]) == Next(2, Run(2, INITIAL, all[..i]), all[i]) {
      assert all[..i + 1] == all[..i] + [all[i]];
      RunSnoc(2, INITIAL, all[..i], all[i]);
    }
    assert Run(2, INITIAL, all[..2]) == one;
    assert Run(2, INITIAL, all[..4]) == one.(sent := [f0, f1], frames := [f0, f1]);
    assert Run(2, INITIAL, all[..6]) == one.(sent := [f0, f1, f2], frames := [f0, f1], producer := Evicting(f2));
  }

  /** And after the pump's. */
  lemma TakenAndWritten(x: State, f0: Frame, f1: Frame)
    requires x.frames == [f1] && x.pump == Waiting && x.dropped == 0 && x.wire == [] && x.fates == [Evicted(f0)]
    requires x.producer.Counting? && x.producer.at == 0
    ensures Run(2, x, [Pumping(Take), Pumping(Swap), Pumping(WriteFrame(true))]) ==
            x.(frames := [], fates := [Evicted(f0), Taken(f1)], wire := [Data(Held(f1, 1), Some(0))])
  {
    var take, swap, write := Pumping(Take), Pumping(Swap), Pumping(WriteFrame(true));
    RunSnoc(2, x, [], take);
    RunSnoc(2, x, [take], swap);
    RunSnoc(2, x, [take, swap], write);
    assert [] + [take] == [take] && [take] + [swap] == [take, swap] && [take, swap] + [write] == [take, swap, write];
    assert Run(2, x, []) == x;
  }

  lemma FrameAheadOfItsReport(f0: Frame, f1: Frame, f2: Frame)
    requires f0.data != []
    ensures var s := Run(2, INITIAL, EarlyWrite(f0, f1, f2));
            && s.wire == [Data(Held(f1, 1), Some(0))] && s.fates == [Evicted(f0), Taken(f1)]
            && Lost(s.fates[..1]) == |f0.data| > 0 == Reported(s.wire[..0])
  {
    var all := EarlyWrite(f0, f1, f2);
    EvictedUncounted(f0, f1, f2);
    var x := Run(2, INITIAL, all[..7]);
    TakenAndWritten(x, f0, f1);
    RunConcat(2, INITIAL, all[..7], [Pumping(Take), Pumping(Swap), Pumping(WriteFrame(true))]);
    assert all == all[..7] + [Pumping(Take), Pumping(Swap), Pumping(WriteFrame(true))];
    LostSnoc([], Evicted(f0));
    assert [Evicted(f0), Taken(f1)][..1] == [] + [Evicted(f0)];
  }

  /** A connection that ends with a closure message has written every frame it did not report
      lost: the exit frame is the last frame on the wire, directly ahead of the closure, and the
      markers ahead of it add up to exactly the bytes lost. */
  lemma NormalClosure(cap: nat, actions: seq<Action>)
    requires cap > 0
    requires Closure in Run(cap, INITIAL, actions).wire
    ensures var s := Run(cap, INITIAL, actions);
            var n := |s.wire|;
            && n >= 2 && s.wire[n - 1] == Closure
            && s.exitSent && s.sent != []
            && s.wire[n - 2].Data?
            && s.wire[n - 2].held == Held(s.sent[|s.sent| - 1], |s.sent| - 1)
            && Reported(s.wire[..n - 2]) == Lost(s.fates)
            && |s.fates| == |s.sent|
            && WrittenAt(s.wire) == TakenAt(s.fates)
            && Bytes(s.sent) == WrittenBytes(s.wire) + Lost(s.fates)
  {
    InvAlways(cap, actions);
    BytesConserved(cap, actions);
    ClosedState(cap, Run(cap, INITIAL, actions));
  }

  lemma ClosedState(cap: nat, s: State)
    requires Inv(cap, s) && Closure in s.wire
    ensures var n := |s.wire|;
            && n >= 2 && s.wire[n - 1] == Closure
            && s.exitSent && s.sent != []
            && s.wire[n - 2].Data?
            && s.wire[n - 2].held == Held(s.sent[|s.sent| - 1], |s.sent| - 1)
            && Reported(s.wire[..n - 2]) == Lost(s.fates)
            && |s.fates| == |s.sent| && s.frames == []
            && Pending(s.producer) == [] && s.pump == Stopped(None, 0) && Uncounted(s.producer) == 0
            && s.dropped == 0 && Reported(s.wire) == Lost(s.fates)
            && WrittenAt(s.wire) == TakenAt(s.fates)
  {
    var n := |s.wire|;
    var w :| 0 <= w < n && s.wire[w] == Closure;
    assert IsLastFrame(s.wire[n - 2], s.sent);
    assert IsTaken(s.wire[n - 2].held, s.fates);
    assert FramesOf(s.fates)[s.wire[n - 2].held.at] == s.wire[n - 2].held.frame;
    assert s.wire[..n - 1][..n - 2] == s.wire[..n - 2];
    assert Reported(s.wire) == Reported(s.wire[..n - 1]) == Reported(s.wire[..n - 2]);
    assert WrittenAt(s.wire) + [] == WrittenAt(s.wire);
  }

  /** The marker `drain` could write behind the last frame is never needed here:
      by the time the queue is drained everything lost has been reported. */
  lemma NoTrailingMarker(cap: nat, actions: seq<Action>)
    requires cap > 0
    ensures var s := Run(cap, INITIAL, actions);
            && (s.pump.Draining? ==> s.dropped == 0 && Uncounted(s.producer) == 0)
            && !s.pump.DrainMarking?
  {
    InvAlways(cap, actions);
  }
}
