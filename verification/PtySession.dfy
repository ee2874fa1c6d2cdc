/** The output side of one PTY session, `internal/pty/session.go`: consumers come and go under
    the session's lock, each with a replay of the scrollback and a bounded queue of chunks. */
module PtySession {
  import opened Sequences
  import Ring

  const SCROLLBACK_BYTES := 262144   // 256 << 10
  const CONSUMER_QUEUE := 64

  type Chunk = seq<Byte>

  datatype Exit = Exit(code: int)

  // ---------------------------------------------------------------- one reader's history

  /** A consumer's two channels, and everything that has been put on them and taken off. */
  datatype Reader = Reader(
    chunks: seq<Chunk>, exits: seq<Exit>,
    closed: bool,              // both channels; they are only ever closed together
    detached: bool,
    replay: seq<Byte>,         // the snapshot handed out at attach
    from: nat,                 // where in the session's output the replay starts
    until: nat,                // how much of the output has been replayed or offered
    offered: seq<Chunk>,
    taken: seq<bool>,          // for each offer, whether the queue had room
    received: seq<Chunk>,      // what the reader has taken off the queue
    published: seq<Exit>,      // every status ever put on the exit channel
    reported: seq<Exit>)       // those the reader has taken

  /** The chunks whose offer was accepted, in order. */
  function Accepted(offered: seq<Chunk>, taken: seq<bool>): seq<Chunk>
    requires |taken| == |offered|
  {
    if offered == [] then []
    else Accepted(offered[..|offered| - 1], taken[..|taken| - 1]) +
         (if taken[|taken| - 1] then [offered[|offered| - 1]] else [])
  }

  lemma AcceptedSnoc(offered: seq<Chunk>, taken: seq<bool>, chunk: Chunk, ok: bool)
    requires |taken| == |offered|
    ensures Accepted(offered + [chunk], taken + [ok]) == Accepted(offered, taken) + (if ok then [chunk] else [])
  {
    assert (offered + [chunk])[..|offered|] == offered;
    assert (taken + [ok])[..|taken|] == taken;
  }

  /** A queue that never filled delivered everything. */
  lemma {:induction false} NothingRefused(offered: seq<Chunk>, taken: seq<bool>)
    requires |taken| == |offered| && forall i | 0 <= i < |taken| :: taken[i]
    ensures Accepted(offered, taken) == offered
  {
    if offered != [] {
      NothingRefused(offered[..|offered| - 1], taken[..|taken| - 1]);
    }
  }

  /** What is delivered and still queued is what was accepted, and the exit status is published
      once at most, to readers that did not detach first. */
  predicate Sound(r: Reader) {
    && |r.taken| == |r.offered|
    && r.received + r.chunks == Accepted(r.offered, r.taken)
    && |r.chunks| <= CONSUMER_QUEUE
    && r.reported + r.exits == r.published
    && |r.published| <= 1
    && (!r.closed ==> r.published == [] && !r.detached)
    && (r.detached ==> r.closed && r.published == [])
  }

  /** What this reader has been shown is one stretch of the session's output, beginning with as
      much of what there was when it attached as the scrollback holds. */
  predicate Sees(r: Reader, output: seq<Byte>) {
    && r.from <= r.until <= |output| && r.replay + Flat(r.offered) == output[r.from..r.until]
    && r.from + |r.replay| <= r.until && r.replay == Tail(output[..r.from + |r.replay|], SCROLLBACK_BYTES)
  }

  /** How a reader stands to its session: an open one has been shown everything up to now, and a
      closed one that did not detach has been shown everything up to the end, and how it ended. */
  predicate InPlace(r: Reader, room: Room) {
    && Sound(r) && Sees(r, room.output)
    && (!r.closed ==> room.ended.None? && r.until == |room.output|)
    && (r.closed && !r.detached ==> room.ended.Some? && r.published == [room.ended.value] && room.length <= r.until)
  }

  // ---------------------------------------------------------------- what a session does to a reader

  /** A non-blocking send: a full queue has the chunk dropped. */
  function Offered(r: Reader, chunk: Chunk): Reader {
    var room := |r.chunks| < CONSUMER_QUEUE;
    r.(chunks := if room then r.chunks + [chunk] else r.chunks,
       offered := r.offered + [chunk], taken := r.taken + [room], until := r.until + |chunk|)
  }

  /** Close, publish, close. */
  function Concluded(r: Reader, e: Exit): Reader {
    r.(closed := true, exits := r.exits + [e], published := r.published + [e])
  }

  function Released(r: Reader): Reader {
    r.(closed := true, detached := true)
  }

  /** A closed queue still drains what it holds. */
  function Received(r: Reader): Reader {
    if r.chunks == [] then r else r.(chunks := r.chunks[1..], received := r.received + [r.chunks[0]])
  }

  function Reported(r: Reader): Reader {
    if r.exits == [] then r else r.(exits := r.exits[1..], reported := r.reported + [r.exits[0]])
  }

  /** A reader's start: the tail of the output so far, and nothing offered yet. */
  function Attached(replay: seq<Byte>, from: nat): Reader {
    Reader([], [], false, false, replay, from, from + |replay|, [], [], [], [], [])
  }

  // ---------------------------------------------------------------- the session as a value

  /** A session: what the child has written, every reader that ever attached, in order, and how and
      with how much written it ended. */
  datatype Room = Room(output: seq<Byte>, readers: seq<Reader>, ended: Option<Exit>, length: nat)

  const Opened := Room([], [], None, 0)

  /** Readers are named by the order they attached in. */
  datatype Event =
    | Wrote(chunk: Chunk) | Finished(e: Exit)
    | Attaches | Detaches(reader: nat) | Takes(reader: nat) | TakesExit(reader: nat)

  function OfferedTo(r: Reader, chunk: Chunk): Reader {
    if r.closed then r else Offered(r, chunk)
  }

  function ConcludedFor(r: Reader, e: Exit): Reader {
    if r.closed then r else Concluded(r, e)
  }

  function OfferedToAll(readers: seq<Reader>, chunk: Chunk): (offered: seq<Reader>)
    ensures |offered| == |readers| && forall i | 0 <= i < |readers| :: offered[i] == OfferedTo(readers[i], chunk)
  {
    seq(|readers|, i requires 0 <= i < |readers| => OfferedTo(readers[i], chunk))
  }

  function ConcludedForAll(readers: seq<Reader>, e: Exit): (concluded: seq<Reader>)
    ensures |concluded| == |readers| && forall i | 0 <= i < |readers| :: concluded[i] == ConcludedFor(readers[i], e)
  {
    seq(|readers|, i requires 0 <= i < |readers| => ConcludedFor(readers[i], e))
  }

  function Newcomer(room: Room): Reader {
    var replay := Tail(room.output, SCROLLBACK_BYTES);
    var start := Attached(replay, |room.output| - |replay|);
    match room.ended case None => start case Some(e) => Concluded(start, e)
  }

  /** An event of one reader's concerns that reader alone. */
  function Touched(room: Room, event: Event, n: nat): Room {
    if n < |room.readers| then room.(readers := room.readers[n := Touch(room.readers[n], event)]) else room
  }

  function Touch(r: Reader, event: Event): Reader {
    match event
    case Takes(_) => Received(r)
    case TakesExit(_) => Reported(r)
    case _ => if r.closed then r else Released(r)
  }

  function Next(room: Room, event: Event): Room {
    match event
    case Wrote(chunk) =>
      room.(output := room.output + chunk, readers := OfferedToAll(room.readers, chunk))
    case Finished(e) =>
      if room.ended.Some? then room else
      room.(ended := Some(e), length := |room.output|, readers := ConcludedForAll(room.readers, e))
    case Attaches => room.(readers := room.readers + [Newcomer(room)])
    case Detaches(n) => Touched(room, event, n)
    case Takes(n) => Touched(room, event, n)
    case TakesExit(n) => Touched(room, event, n)
  }

  function Run(events: seq<Event>): Room {
    if events == [] then Opened else Next(Run(events[..|events| - 1]), events[|events| - 1])
  }

  lemma RunSnoc(events: seq<Event>, event: Event)
    ensures Run(events + [event]) == Next(Run(events), event)
  {
    assert (events + [event])[..|events|] == events;
  }

  // ---------------------------------------------------------------- every reader is in place

  /** Offering the next chunk extends what a reader has seen. */
  lemma Extended(replay: seq<Byte>, offered: seq<Chunk>, chunk: Chunk, output: seq<Byte>, from: nat)
    requires from <= |output| && replay + Flat(offered) == output[from..]
    ensures replay + Flat(offered + [chunk]) == (output + chunk)[from..|output| + |chunk|]
  {
    FlatSnoc(offered, chunk);
    assert replay + Flat(offered + [chunk]) == output[from..] + chunk;
  }

  /** More output leaves what was shown before where it was. */
  lemma SeesOn(r: Reader, output: seq<Byte>, chunk: Chunk)
    requires Sees(r, output)
    ensures Sees(r, output + chunk)
  {
    assert (output + chunk)[r.from..r.until] == output[r.from..r.until];
    assert (output + chunk)[..r.from + |r.replay|] == output[..r.from + |r.replay|];
  }

  lemma OfferedSees(r: Reader, output: seq<Byte>, chunk: Chunk)
    requires Sees(r, output) && r.until == |output|
    ensures Sees(Offered(r, chunk), output + chunk)
  {
    SeesOn(r, output, chunk);
    Extended(r.replay, r.offered, chunk, output, r.from);
  }

  lemma OfferedSound(r: Reader, chunk: Chunk)
    requires Sound(r)
    ensures Sound(Offered(r, chunk))
  {
    var room := |r.chunks| < CONSUMER_QUEUE;
    AcceptedSnoc(r.offered, r.taken, chunk, room);
    assert Offered(r, chunk).received + Offered(r, chunk).chunks == r.received + r.chunks + (if room then [chunk] else []);
  }

  lemma OfferedInPlace(r: Reader, room: Room, chunk: Chunk)
    requires InPlace(r, room)
    ensures InPlace(OfferedTo(r, chunk), Next(room, Wrote(chunk)))
  {
    if r.closed {
      SeesOn(r, room.output, chunk);
    } else {
      OfferedSees(r, room.output, chunk);
      OfferedSound(r, chunk);
    }
  }

  lemma ConcludedInPlace(r: Reader, room: Room, e: Exit)
    requires InPlace(r, room) && room.ended.None?
    ensures InPlace(ConcludedFor(r, e), Next(room, Finished(e)))
  {
  }

  lemma ReleasedInPlace(r: Reader, room: Room)
    requires InPlace(r, room) && !r.closed
    ensures InPlace(Released(r), room)
  {
  }

  lemma TakenInPlace(r: Reader, room: Room)
    requires InPlace(r, room)
    ensures InPlace(Received(r), room) && InPlace(Reported(r), room)
  {
    if r.chunks != [] { assert r.received + r.chunks == r.received + [r.chunks[0]] + r.chunks[1..]; }
    if r.exits != [] { assert r.reported + r.exits == r.reported + [r.exits[0]] + r.exits[1..]; }
  }

  lemma NewcomerInPlace(room: Room)
    requires room.ended.Some? ==> room.length <= |room.output|
    ensures InPlace(Newcomer(room), room)
  {
    var replay, output := Tail(room.output, SCROLLBACK_BYTES), room.output;
    assert replay + Flat([]) == replay;
    assert replay == output[|output| - |replay|..|output|];
    assert output[..|output|] == output;
  }

  ghost predicate AllInPlace(room: Room) {
    room.length <= |room.output| && forall i | 0 <= i < |room.readers| :: InPlace(room.readers[i], room)
  }

  lemma EventKeepsPlaces(room: Room, event: Event)
    requires AllInPlace(room)
    ensures AllInPlace(Next(room, event))
  {
    var next := Next(room, event);
    forall i | 0 <= i < |next.readers| ensures InPlace(next.readers[i], next) {
      if event.Attaches? && i == |room.readers| {
        NewcomerInPlace(room);
        assert InPlace(next.readers[i], next);
      } else {
        ReaderKeepsPlace(room, event, i);
      }
    }
  }

  lemma ReaderKeepsPlace(room: Room, event: Event, i: nat)
    requires i < |room.readers| && InPlace(room.readers[i], room)
    ensures InPlace(Next(room, event).readers[i], Next(room, event))
  {
    if event.Wrote? {
      OfferedInPlace(room.readers[i], room, event.chunk);
    } else if event.Finished? {
      if room.ended.None? { ConcludedInPlace(room.readers[i], room, event.e); }
    } else {
      ReaderStaysInPlace(room, event, i);
    }
  }

  /** What a reader stands to is the output and the end alone. */
  lemma PlaceCarries(r: Reader, room: Room, next: Room)
    requires InPlace(r, room) && next.(readers := room.readers) == room
    ensures InPlace(r, next)
  {
  }

  lemma ReaderStaysInPlace(room: Room, event: Event, i: nat)
    requires i < |room.readers| && InPlace(room.readers[i], room) && !event.Wrote? && !event.Finished?
    ensures InPlace(Next(room, event).readers[i], Next(room, event))
  {
    var r, next := room.readers[i], Next(room, event);
    if event.Detaches? && event.reader == i && !r.closed {
      ReleasedInPlace(r, room);
    } else if event.Takes? || event.TakesExit? {
      TakenInPlace(r, room);
    }
    PlaceCarries(next.readers[i], room, next);
  }

  /** A chunk offered to an open reader whose queue has room is delivered, and otherwise dropped for it;
      a reader that has been closed is offered none. */
  lemma OfferDelivers(room: Room, n: nat, chunk: Chunk)
    requires n < |room.readers|
    ensures var r, t := room.readers[n], Next(room, Wrote(chunk)).readers[n];
            t.chunks == if !r.closed && |r.chunks| < 64 then r.chunks + [chunk] else r.chunks
  {
  }

  /** A receive takes the oldest chunk queued, whether or not the queue is closed, and so with the status;
      no other reader notices. */
  lemma ReceivesOldestFirst(room: Room, n: nat)
    requires n < |room.readers|
    ensures var r, t := room.readers[n], Next(room, Takes(n)).readers[n];
            r.chunks != [] ==> t == r.(chunks := r.chunks[1..], received := r.received + [r.chunks[0]])
    ensures var r, t := room.readers[n], Next(room, TakesExit(n)).readers[n];
            r.exits != [] ==> t == r.(exits := r.exits[1..], reported := r.reported + [r.exits[0]])
    ensures forall i, event | 0 <= i < |room.readers| && i != n && event in {Takes(n), TakesExit(n), Detaches(n)} ::
              Next(room, event).readers[i] == room.readers[i]
  {
  }

  /** Attaching adds one reader, with the newest of the output to replay; to a session that has ended, with
      its queues closed and how it ended in them. */
  lemma AttachJoins(room: Room)
    ensures var t, n := Next(room, Attaches), |room.readers|;
            && |t.readers| == n + 1 && t.readers[..n] == room.readers
            && t.readers[n].replay == Tail(room.output, 262144) && t.readers[n].chunks == []
            && t.readers[n].closed == room.ended.Some?
            && t.readers[n].exits == (match room.ended case None => [] case Some(e) => [e])
  {
  }

  /** Detaching closes a reader that is open, and does nothing to one that is not. */
  lemma DetachCloses(room: Room, n: nat)
    requires n < |room.readers|
    ensures var r, t := room.readers[n], Next(room, Detaches(n)).readers[n];
            t == if r.closed then r else r.(closed := true, detached := true)
  {
  }

  /** A session ends once, with all that was written by then. */
  lemma EndsOnce(room: Room, event: Event, e: Exit)
    ensures room.ended.None? ==> Next(room, Finished(e)).ended == Some(e) && Next(room, Finished(e)).length == |room.output|
    ensures room.ended.Some? || !event.Finished? ==> Next(room, event).ended == room.ended && Next(room, event).length == room.length
  {
  }

  lemma {:induction false} AlwaysInPlace(events: seq<Event>)
    ensures AllInPlace(Run(events))
  {
    if events != [] {
      AlwaysInPlace(events[..|events| - 1]);
      EventKeepsPlaces(Run(events[..|events| - 1]), events[|events| - 1]);
    }
  }

  /** Every reader of every session, however attaching, output, detaching, receiving and the end
      interleave: the replay is the newest of the output at its attach, as far as the scrollback
      holds it; the replay and the chunks offered to it are one stretch of the output, up to now
      while it is open and to the end if it was told of one; what it has received is a beginning of
      the accepted chunks, with the rest still queued; and it is told how the session ended exactly
      when it did so without the reader detaching first, once. */
  lemma {:induction false} ReaderSeesOneStretch(events: seq<Event>, n: nat)
    requires n < |Run(events).readers|
    ensures var room := Run(events); var r := room.readers[n];
            && r.from <= r.until <= |room.output| && r.replay + Flat(r.offered) == room.output[r.from..r.until]
            && r.from + |r.replay| <= |room.output|
            && r.replay == Tail(room.output[..r.from + |r.replay|], 256 * 1024) && |r.chunks| <= 64
            && (!r.closed ==> r.until == |room.output|)
            && |r.taken| == |r.offered| && r.received + r.chunks == Accepted(r.offered, r.taken)
            && ((forall i | 0 <= i < |r.taken| :: r.taken[i]) ==> r.received + r.chunks == r.offered)
            && (r.reported + r.exits == if room.ended.Some? && !r.detached then [room.ended.value] else [])
            && (room.ended.Some? && !r.detached ==> room.length <= r.until)
            && (r.closed <==> r.detached || room.ended.Some?)
  {
    AlwaysInPlace(events);
    var room := Run(events);
    var r := room.readers[n];
    assert InPlace(r, room);
    if forall i | 0 <= i < |r.taken| :: r.taken[i] { NothingRefused(r.offered, r.taken); }
  }

  // ---------------------------------------------------------------- the objects

  /** One attached reader's channels. Sending to or closing a closed channel is a panic in the
      original, and the status is sent under the session's lock, so both are preconditions here. */
  class Consumer {
    var chunks: seq<Chunk>
    var exits: seq<Exit>
    var closed: bool

    /** These channels hold what the reader's history says. */
    ghost predicate Is(r: Reader)
      reads this
    {
      chunks == r.chunks && exits == r.exits && closed == r.closed
    }

    constructor ()
      ensures chunks == [] && exits == [] && !closed
    {
      chunks, exits, closed := [], [], false;
    }

    method Offer(chunk: Chunk)
      requires !closed
      modifies `chunks
      ensures chunks == if |old(chunks)| < 64 then old(chunks) + [chunk] else old(chunks)
    {
      if |chunks| < CONSUMER_QUEUE { chunks := chunks + [chunk]; }
    }

    /** Ends the stream with the child's status, for which there is room. */
    method Conclude(e: Exit)
      requires !closed && exits == []
      modifies `exits, `closed
      ensures exits == [e] && closed
    {
      exits := exits + [e];
      closed := true;
    }

    /** Ends the stream without a status. */
    method Release()
      requires !closed
      modifies `closed
      ensures closed
    {
      closed := true;
    }

    /** The reader takes the next chunk. */
    method Receive() returns (chunk: Option<Chunk>)
      modifies `chunks
      ensures if old(chunks) == [] then chunk == None && chunks == []
              else chunk == Some(old(chunks)[0]) && chunks == old(chunks)[1..]
    {
      if chunks == [] { return None; }
      chunk := Some(chunks[0]);
      chunks := chunks[1..];
    }

    /** The reader takes the exit status, if one is waiting. */
    method ReceiveExit() returns (e: Option<Exit>)
      modifies `exits
      ensures if old(exits) == [] then e == None && exits == [] else e == Some(old(exits)[0]) && exits == old(exits)[1..]
    {
      if exits == [] { return None; }
      e := Some(exits[0]);
      exits := exits[1..];
    }
  }

  class Session {
    const scrollback: Ring.Buffer
    var consumers: seq<Consumer>
    var exited: bool
    var exit: Exit
    ghost var joined: seq<Consumer>      // every consumer ever attached, in order
    ghost var events: seq<Event>         // everything that has happened

    ghost function Ended(): Option<Exit>
      reads `exited, `exit
    {
      if exited then Some(exit) else None
    }

    /** The consumers hold what these histories say. */
    ghost predicate InStep(readers: seq<Reader>)
      reads `joined, joined
    {
      |joined| == |readers| && forall i | 0 <= i < |joined| :: joined[i].Is(readers[i])
    }

    /** `consumers` lists those still open. */
    ghost predicate ListsTheOpen()
      reads `consumers, `joined, joined
    {
      && NoneTwice(consumers) && NoneTwice(joined)
      && (forall c | c in consumers :: c in joined && !c.closed)
      && (forall c | c in joined :: !c.closed ==> c in consumers)
    }

    /** The object is this session. */
    ghost predicate Settled(room: Room)
      reads `consumers, `joined, `exited, `exit, joined, scrollback, scrollback.buf
    {
      && scrollback.Valid() && scrollback.buf.Length == SCROLLBACK_BYTES
      && Flat(scrollback.writes) == room.output && Ended() == room.ended
      && InStep(room.readers) && ListsTheOpen()
    }

    ghost predicate Valid()
      reads this, joined, scrollback, scrollback.buf
    {
      Settled(Run(events))
    }

    constructor ()
      ensures Valid() && fresh(scrollback) && fresh(scrollback.buf) && joined == [] && events == []
    {
      scrollback := new Ring.Buffer(SCROLLBACK_BYTES);
      consumers, exited, exit := [], false, Exit(0);
      joined, events := [], [];
    }

    /** The loop of `broadcast`. */
    method OfferAll(chunk: Chunk)
      requires NoneTwice(consumers) && forall c | c in consumers :: !c.closed
      modifies consumers`chunks
      ensures forall c | c in consumers :: c.chunks == if |old(c.chunks)| < 64 then old(c.chunks) + [chunk] else old(c.chunks)
    {
      for i := 0 to |consumers|
        invariant forall j | i <= j < |consumers| :: unchanged(consumers[j])
        invariant forall j | 0 <= j < i :: consumers[j].chunks == if |old(consumers[j].chunks)| < 64 then old(consumers[j].chunks) + [chunk] else old(consumers[j].chunks)
      {
        consumers[i].Offer(chunk);
      }
    }

    /** The open readers are offered the chunk, and no other. */
    method OfferOpen(chunk: Chunk, ghost readers: seq<Reader>)
      requires InStep(readers) && ListsTheOpen()
      modifies consumers`chunks
      ensures InStep(OfferedToAll(readers, chunk)) && ListsTheOpen()
      ensures forall c | c in consumers :: c.chunks == if |old(c.chunks)| < 64 then old(c.chunks) + [chunk] else old(c.chunks)
    {
      OfferAll(chunk);
      forall i | 0 <= i < |joined| ensures joined[i].Is(OfferedTo(readers[i], chunk)) {
        assert old(joined[i].Is(readers[i]));
      }
    }

    method Record(chunk: Chunk)
      requires scrollback.Valid()
      modifies scrollback, scrollback.buf
      ensures scrollback.Valid() && Flat(scrollback.writes) == old(Flat(scrollback.writes)) + chunk
    {
      FlatSnoc(scrollback.writes, chunk);
      scrollback.Write(chunk);
    }

    method Spread(chunk: Chunk, ghost room: Room)
      requires Settled(room)
      modifies scrollback, scrollback.buf, consumers`chunks
      ensures Settled(Next(room, Wrote(chunk)))
      ensures forall c | c in consumers :: c.chunks == if |old(c.chunks)| < 64 then old(c.chunks) + [chunk] else old(c.chunks)
    {
      Record(chunk);
      OfferOpen(chunk, room.readers);
    }

    /** Records a chunk and offers it to every attached consumer. */
    method Broadcast(chunk: Chunk)
      requires Valid()
      modifies scrollback, scrollback.buf, consumers`chunks, `events
      ensures Valid() && events == old(events) + [Wrote(chunk)]
      ensures forall c | c in consumers :: c.chunks == if |old(c.chunks)| < 64 then old(c.chunks) + [chunk] else old(c.chunks)
    {
      Spread(chunk, Run(events));
      RunSnoc(events, Wrote(chunk));
      events := events + [Wrote(chunk)];
    }

    /** The loop of `finish`. */
    method ConcludeAll(e: Exit)
      requires NoneTwice(consumers) && forall c | c in consumers :: !c.closed && c.exits == []
      modifies consumers`exits, consumers`closed
      ensures forall c | c in consumers :: c.closed && c.exits == [e]
    {
      for i := 0 to |consumers|
        invariant forall j | i <= j < |consumers| :: unchanged(consumers[j])
        invariant forall j | 0 <= j < i :: consumers[j].closed && consumers[j].exits == [e]
      {
        consumers[i].Conclude(e);
      }
    }

    /** No open reader has a status waiting, so sending it one does not block. */
    lemma RoomForTheStatus(room: Room)
      requires InStep(room.readers) && AllInPlace(room)
      ensures forall i | 0 <= i < |joined| :: !joined[i].closed ==> joined[i].exits == [] == room.readers[i].exits
    {
      forall i | 0 <= i < |joined| && !joined[i].closed ensures joined[i].exits == [] == room.readers[i].exits {
        assert joined[i].Is(room.readers[i]) && InPlace(room.readers[i], room);
      }
    }

    /** The open readers are told the status, and closed. */
    method ConcludeOpen(e: Exit, ghost readers: seq<Reader>)
      requires InStep(readers) && ListsTheOpen()
      requires forall i | 0 <= i < |joined| :: !joined[i].closed ==> joined[i].exits == [] == readers[i].exits
      modifies `consumers, consumers`exits, consumers`closed
      ensures InStep(ConcludedForAll(readers, e)) && ListsTheOpen() && consumers == []
      ensures forall c | c in old(consumers) :: c.closed && c.exits == [e]
    {
      ConcludeAll(e);
      forall i | 0 <= i < |joined| ensures joined[i].Is(ConcludedFor(readers[i], e)) {
        assert old(joined[i].Is(readers[i]));
      }
      consumers := [];
    }

    method End(e: Exit, ghost room: Room)
      requires Settled(room) && AllInPlace(room) && !exited
      modifies `consumers, `exited, `exit, consumers`exits, consumers`closed
      ensures Settled(Next(room, Finished(e))) && exited && exit == e && consumers == []
      ensures forall c | c in old(consumers) :: c.closed && c.exits == [e]
    {
      RoomForTheStatus(room);
      exited, exit := true, e;
      ConcludeOpen(e, room.readers);
    }

    /** Publishes the exit status to everyone attached and ends the session. */
    method Finish(e: Exit)
      requires Valid() && !exited
      modifies `consumers, `exited, `exit, `events, consumers`exits, consumers`closed
      ensures Valid() && events == old(events) + [Finished(e)]
      ensures exited && exit == e && consumers == []
      ensures forall c | c in old(consumers) :: c.closed && c.exits == [e]
    {
      AlwaysInPlace(events);
      End(e, Run(events));
      RunSnoc(events, Finished(e));
      events := events + [Finished(e)];
    }

    /** A consumer of its own, listed unless the session has ended. */
    method Join(ghost readers: seq<Reader>, ghost r: Reader) returns (c: Consumer)
      requires ListsTheOpen() && InStep(readers)
      requires r.chunks == [] && r.closed == exited && r.exits == if exited then [exit] else []
      modifies `consumers, `joined
      ensures ListsTheOpen() && InStep(readers + [r]) && fresh(c) && joined == old(joined) + [c]
      ensures c.chunks == [] && c.closed == exited && c.exits == (if exited then [exit] else [])
      ensures consumers == if exited then old(consumers) else old(consumers) + [c]
    {
      c := new Consumer();
      Added(joined, c);
      joined := joined + [c];
      if exited {
        c.Conclude(exit);
      } else {
        Added(consumers, c);
        consumers := consumers + [c];
      }
      assert forall i | 0 <= i < |readers| :: old(joined)[i].Is(readers[i]);
    }

    /** A copy of the scrollback. */
    method Replay() returns (replay: seq<Byte>)
      requires scrollback.Valid() && scrollback.buf.Length == SCROLLBACK_BYTES
      ensures replay == Tail(Flat(scrollback.writes), SCROLLBACK_BYTES)
    {
      var snapshot := scrollback.Snapshot();
      replay := snapshot[..];
    }

    method Admit(ghost room: Room) returns (c: Consumer, replay: seq<Byte>)
      requires Settled(room)
      modifies `consumers, `joined
      ensures Settled(Next(room, Attaches)) && fresh(c) && joined == old(joined) + [c]
      ensures replay == Newcomer(room).replay == Tail(Flat(scrollback.writes), SCROLLBACK_BYTES)
      ensures c.chunks == [] && c.closed == exited && c.exits == (if exited then [exit] else [])
      ensures consumers == if exited then old(consumers) else old(consumers) + [c]
    {
      replay := Replay();
      c := Join(room.readers, Newcomer(room));
    }

    /** Registers a consumer; the snapshot and the registration are one step. */
    method Attach() returns (c: Consumer, replay: seq<Byte>)
      requires Valid()
      modifies `consumers, `joined, `events
      ensures Valid() && fresh(c) && events == old(events) + [Attaches] && joined == old(joined) + [c]
      ensures replay == Newcomer(Run(old(events))).replay
      ensures c.chunks == [] && c.closed == exited && c.exits == (if exited then [exit] else [])
      ensures consumers == if exited then old(consumers) else old(consumers) + [c]
    {
      c, replay := Admit(Run(events));
      RunSnoc(events, Attaches);
      events := events + [Attaches];
    }

    /** The loop of `detach`. */
    method Unlist(c: Consumer) returns (listed: bool)
      requires NoneTwice(consumers)
      modifies `consumers
      ensures listed == (c in old(consumers)) && NoneTwice(consumers)
      ensures forall other :: other in consumers <==> other in old(consumers) && other != c
    {
      for i := 0 to |consumers|
        invariant c !in consumers[..i]
      {
        if consumers[i] == c {
          Dropped(consumers, i);
          consumers := consumers[..i] + consumers[i + 1..];
          return true;
        }
      }
      listed := false;
    }

    /** Its channels are closed unless they were. */
    method Dismiss(c: Consumer, ghost n: nat, ghost room: Room)
      requires Settled(room) && n < |joined| && joined[n] == c
      modifies `consumers, c`closed
      ensures Settled(Next(room, Detaches(n)))
      ensures c.closed
      ensures forall other :: other in consumers <==> other in old(consumers) && other != c
    {
      assert c.Is(room.readers[n]);
      var listed := Unlist(c);
      if listed { c.Release(); }
    }

    /** Unregisters a consumer and closes its channels, unless finish or an earlier detach did. */
    method Detach(c: Consumer, ghost n: nat)
      requires Valid() && n < |joined| && joined[n] == c
      modifies `consumers, `events, c`closed
      ensures Valid() && events == old(events) + [Detaches(n)]
      ensures c.closed
      ensures forall other :: other in consumers <==> other in old(consumers) && other != c
    {
      Dismiss(c, n, Run(events));
      RunSnoc(events, Detaches(n));
      events := events + [Detaches(n)];
    }

    /** It takes what its channel holds first. */
    method ReceiveFrom(c: Consumer, ghost n: nat, ghost room: Room) returns (chunk: Option<Chunk>)
      requires Settled(room) && n < |joined| && joined[n] == c
      modifies c`chunks
      ensures Settled(Next(room, Takes(n)))
      ensures chunk == if old(c.chunks) == [] then None else Some(old(c.chunks)[0])
    {
      assert c.Is(room.readers[n]);
      chunk := c.Receive();
    }

    /** A reader takes its next chunk. */
    method Deliver(c: Consumer, ghost n: nat) returns (chunk: Option<Chunk>)
      requires Valid() && n < |joined| && joined[n] == c
      modifies `events, c`chunks
      ensures Valid() && events == old(events) + [Takes(n)]
      ensures chunk == if old(c.chunks) == [] then None else Some(old(c.chunks)[0])
    {
      chunk := ReceiveFrom(c, n, Run(events));
      RunSnoc(events, Takes(n));
      events := events + [Takes(n)];
    }

    /** It takes the status, if its channel holds one. */
    method ReceiveExitFrom(c: Consumer, ghost n: nat, ghost room: Room) returns (e: Option<Exit>)
      requires Settled(room) && n < |joined| && joined[n] == c
      modifies c`exits
      ensures Settled(Next(room, TakesExit(n)))
      ensures e == if old(c.exits) == [] then None else Some(old(c.exits)[0])
    {
      assert c.Is(room.readers[n]);
      e := c.ReceiveExit();
    }

    /** A reader takes its exit status. */
    method DeliverExit(c: Consumer, ghost n: nat) returns (e: Option<Exit>)
      requires Valid() && n < |joined| && joined[n] == c
      modifies `events, c`exits
      ensures Valid() && events == old(events) + [TakesExit(n)]
      ensures e == if old(c.exits) == [] then None else Some(old(c.exits)[0])
    {
      e := ReceiveExitFrom(c, n, Run(events));
      RunSnoc(events, TakesExit(n));
      events := events + [TakesExit(n)];
    }
  }

  ghost predicate NoneTwice(cs: seq<Consumer>) {
    forall i, j | 0 <= i < j < |cs| :: cs[i] != cs[j]
  }

  lemma Added(cs: seq<Consumer>, c: Consumer)
    requires NoneTwice(cs) && c !in cs
    ensures NoneTwice(cs + [c])
  {
  }

  lemma Dropped(cs: seq<Consumer>, i: nat)
    requires NoneTwice(cs) && i < |cs|
    ensures NoneTwice(cs[..i] + cs[i + 1..])
    ensures forall c :: c in cs[..i] + cs[i + 1..] <==> c in cs && c != cs[i]
  {
    var rest := cs[..i] + cs[i + 1..];
    forall c ensures c in rest <==> c in cs && c != cs[i] {
      if c in cs && c != cs[i] {
        var k :| 0 <= k < |cs| && cs[k] == c;
        assert rest[if k < i then k else k - 1] == c;
      }
    }
  }
}
