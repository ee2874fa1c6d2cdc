/** The run loop of one cluster watch, `internal/kubewatch/session.go`, with the pumps it starts
    (`internal/kubewatch/pump.go`) and the edits that ask it to rebuild. Every channel operation,
    every write to what the panel sees and every call that can be overtaken is one action, so a list
    of actions is an interleaving of the run loop, its pumps, and whoever edits the checkout. */
module WatchRun {
  import opened Sequences
  import opened WatchPlan

  const MIN_BACKOFF := 1    // seconds
  const MAX_BACKOFF := 15

  /** Doubled and capped. */
  function NextBackoff(current: nat): nat {
    if current == 0 then MIN_BACKOFF
    else if current * 2 < MAX_BACKOFF then current * 2
    else MAX_BACKOFF
  }

  function Pow2(n: nat): (r: nat)
    ensures r >= 1
  {
    if n == 0 then 1 else 2 * Pow2(n - 1)
  }

  /** The delay after n consecutive failures: 2^(n-1) seconds, never above the cap. */
  function Schedule(failures: nat): nat {
    if failures == 0 then 0
    else if Pow2(failures - 1) < MAX_BACKOFF then Pow2(failures - 1)
    else MAX_BACKOFF
  }

  /** Doubling and capping follows the schedule: past the cap it stays there. */
  lemma BackoffFollowsSchedule(failures: nat)
    ensures NextBackoff(Schedule(failures)) == Schedule(failures + 1)
  {
    assert Pow2(0) == 1;
    if failures > 0 { assert Pow2(failures) == 2 * Pow2(failures - 1); }
  }

  /** The checkout, the one-slot replan channel, and what the run loop last read. */
  datatype Desk = Desk(
    content: seq<Object>,      // what the checkout declares for this binding
    edits: nat,                // how often that may have changed
    owed: nat,                 // editors between an edit and their call to replan
    token: bool,               // the replanned channel
    readEdit: nat,             // the edit count at the last Declared call
    readContent: seq<Object>)  // what that call answered

  /** Where one group's goroutine stands: its list request in flight, following watches, refused and
      waiting out the session, on its way out, gone. */
  datatype Stage = Listing | Following | Refused | Sending | Done

  /** One group's goroutine, and the cycle that started it. */
  datatype Pump = Pump(group: Group, cycle: nat, stage: Stage)

  /** A health written into a row: by which pump of which cycle, for which object of which group, and
      what it hit: which cycle's rows, and the object whose row it was, if there was one. */
  datatype Mark = Mark(pump: nat, pumpCycle: nat, key: GroupKey, name: string, rowsCycle: nat, row: Option<Object>, mapper: Mapper)

  /** The rows on display and the pumps keeping them current. */
  datatype Crew = Crew(
    cycle: nat,               // how many times rows have been seeded or cleared
    shown: seq<Object>,       // the objects that have a row, in row order
    mapper: Mapper,           // the discovery of the last connection
    pumps: seq<Pump>,
    results: nat,             // values in the failed channel
    collected: nat,           // values follow has taken off it
    marks: seq<Mark>)

  /** How a cycle ends. */
  datatype Outcome = Superseded | Broke(denied: bool)

  /** Where the run loop stands. */
  datatype Loop =
    | Waiting                                   // in wait(backoff)
    | Reading                                   // about to call Declared
    | Parking                                   // nothing declared, not yet said
    | Clearing                                  // said, the rows not yet gone
    | Parked
    | Announcing(planned: seq<Object>)          // about to say "connecting"
    | Building(planned: seq<Object>)            // building a client
    | Planning(planned: seq<Object>, mapper: Mapper)   // connected, about to seed the rows
    | Seeded(planned: seq<Object>)              // about to say "watching"
    | Starting(planned: seq<Object>)            // said, no pump started yet
    | AtSelect(planned: seq<Object>)            // at the select of follow
    | Checking(planned: seq<Object>)            // token taken, about to call Declared
    | Leaving(planned: seq<Object>, outcome: Outcome)  // follow is returning: cancel, then wait for the pumps
    | Ended

  datatype State = State(desk: Desk, crew: Crew, loop: Loop, phase: Phase, backoff: nat, cancelled: bool)

  /** What a group's first request comes back with. */
  datatype Answer = Listed | MayNotRead | Broken

  datatype Action =
    | Edit(content: seq<Object>) | Replan
    | WaitOver | Declare(ok: bool) | SayIdle | Clear | Unpark
    | SayConnecting | Connect(mapper: Mapper) | ConnectFails(denied: bool) | Seed | SayWatching | StartPumps
    | TakeToken | TakeResult(denied: bool) | Check(ok: bool) | Join
    | Lists(pump: nat, answer: Answer) | MarkRow(pump: nat, name: string, k: nat) | PumpEnds(pump: nat) | PumpSends(pump: nat)
    | Cancel | SeeCancel

  function Initial(mapper: Mapper): State {
    State(Desk([], 0, 0, false, 0, []), Crew(0, [], mapper, [], 0, 0, []), Waiting, Connecting, 0, false)
  }

  function DeskNext(d: Desk, a: Action): Desk {
    match a
    case Edit(content) => d.(content := content, edits := d.edits + 1, owed := d.owed + 1)
    case Replan => if d.owed > 0 then d.(owed := d.owed - 1, token := true) else d
    case _ => d
  }

  /** A Declared call that answered. */
  function Read(d: Desk): Desk {
    d.(readEdit := d.edits, readContent := d.content)
  }

  predicate AllDone(pumps: seq<Pump>) {
    forall i | 0 <= i < |pumps| :: pumps[i].stage == Done
  }

  function WithStage(c: Crew, p: nat, stage: Stage): Crew
    requires p < |c.pumps|
  {
    c.(pumps := c.pumps[p := c.pumps[p].(stage := stage)])
  }

  /** `mark` writes a row if the index is one, and nothing otherwise. */
  function Written(c: Crew, p: nat, name: string, index: nat): Mark
    requires p < |c.pumps|
  {
    Mark(p, c.pumps[p].cycle, c.pumps[p].group.key, name, c.cycle, if index < |c.shown| then Some(c.shown[index]) else None, c.mapper)
  }

  /** A pump's own steps. Only the end of its context ends one that was refused. */
  function CrewNext(c: Crew, a: Action, ending: bool): Crew {
    match a
    case Lists(p, answer) =>
      if p < |c.pumps| && c.pumps[p].stage == Listing
      then WithStage(c, p, match answer case Listed => Following case MayNotRead => Refused case Broken => Sending)
      else c
    case MarkRow(p, name, k) =>
      if p < |c.pumps| && c.pumps[p].stage in {Following, Refused}
         && name in c.pumps[p].group.names && k < |c.pumps[p].group.names[name]|
      then c.(marks := c.marks + [Written(c, p, name, c.pumps[p].group.names[name][k])])
      else c
    case PumpEnds(p) =>
      if p < |c.pumps| && (c.pumps[p].stage == Following || (ending && c.pumps[p].stage in {Refused, Listing}))
      then WithStage(c, p, Sending) else c
    case PumpSends(p) =>
      if p < |c.pumps| && c.pumps[p].stage == Sending && c.results < |c.pumps|
      then WithStage(c, p, Done).(results := c.results + 1) else c
    case _ => c
  }

  /** One pump for every group of the plan. */
  function Started(groups: map<GroupKey, Group>, keys: seq<GroupKey>, cycle: nat): (pumps: seq<Pump>)
    requires forall key | key in keys :: key in groups
    ensures |pumps| == |keys|
    ensures forall i | 0 <= i < |keys| :: pumps[i] == Pump(groups[keys[i]], cycle, Listing)
  {
    if keys == [] then [] else
    assert keys[|keys| - 1] in keys;
    Started(groups, keys[..|keys| - 1], cycle) + [Pump(groups[keys[|keys| - 1]], cycle, Listing)]
  }

  /** The pumps of the plan of these objects. */
  function PumpsFor(mapper: Mapper, objects: seq<Object>, fallback: string, cycle: nat): seq<Pump> {
    KeysArePlanned(mapper, objects, fallback);
    Started(Planned(mapper, objects, fallback), Keys(mapper, objects, fallback), cycle)
  }

  function PhaseFor(denied: bool): Phase {
    if denied then Unauthorized else Reconnecting
  }

  /** A failed cycle: it is said, and the next wait is longer. */
  function Fail(s: State, denied: bool): State {
    if s.cancelled then s.(loop := Ended)
    else s.(loop := Waiting, phase := PhaseFor(denied), backoff := NextBackoff(s.backoff))
  }

  /** A cycle that asked to be rebuilt: the next wait is none, and nothing is said. */
  function Rebuild(s: State): State {
    if s.cancelled then s.(loop := Ended) else s.(loop := Waiting, backoff := 0)
  }

  /** From the wait to the select. */
  function ConnectNext(s: State, a: Action, fallback: string): State {
    match a
    case WaitOver => if s.loop.Waiting? then s.(loop := if s.cancelled then Ended else Reading) else s
    case Declare(ok) =>
      if !s.loop.Reading? then s
      else if !ok then Fail(s, false)
      else if s.desk.content == [] then s.(desk := Read(s.desk), loop := Parking)
      else s.(desk := Read(s.desk), loop := Announcing(s.desk.content))
    case SayIdle => if s.loop.Parking? then s.(phase := Idle, loop := Clearing) else s
    case Clear =>
      if s.loop.Clearing? then s.(crew := s.crew.(shown := [], cycle := s.crew.cycle + 1), loop := Parked) else s
    case Unpark =>
      if s.loop.Parked? && s.desk.token then Rebuild(s.(desk := s.desk.(token := false))) else s
    case SayConnecting => if s.loop.Announcing? then s.(phase := Connecting, loop := Building(s.loop.planned)) else s
    case Connect(mapper) => if s.loop.Building? then s.(loop := Planning(s.loop.planned, mapper)) else s
    case ConnectFails(denied) => if s.loop.Building? then Fail(s, denied) else s
    case Seed =>
      if s.loop.Planning?
      then s.(crew := s.crew.(shown := s.loop.planned, mapper := s.loop.mapper, cycle := s.crew.cycle + 1), loop := Seeded(s.loop.planned))
      else s
    case SayWatching => if s.loop.Seeded? then s.(phase := Watching, loop := Starting(s.loop.planned)) else s
    case StartPumps =>
      if s.loop.Starting?
      then s.(crew := s.crew.(pumps := PumpsFor(s.crew.mapper, s.loop.planned, fallback, s.crew.cycle), results := 0, collected := 0),
              loop := AtSelect(s.loop.planned))
      else s
    case _ => s
  }

  /** From the select back to the wait. */
  function FollowNext(s: State, a: Action): State {
    match a
    case TakeToken =>
      if s.loop.AtSelect? && s.desk.token then s.(desk := s.desk.(token := false), loop := Checking(s.loop.planned)) else s
    case TakeResult(denied) =>
      if s.loop.AtSelect? && s.crew.results > 0
      then s.(crew := s.crew.(results := s.crew.results - 1, collected := s.crew.collected + 1),
              loop := Leaving(s.loop.planned, Broke(denied)))
      else s
    case Check(ok) =>
      if !s.loop.Checking? then s
      else if !ok then s.(loop := Leaving(s.loop.planned, Superseded))
      else s.(desk := Read(s.desk),
              loop := if s.desk.content != s.loop.planned then Leaving(s.loop.planned, Superseded) else AtSelect(s.loop.planned))
    case Join =>
      if !s.loop.Leaving? || !AllDone(s.crew.pumps) then s
      else if s.loop.outcome.Broke? then Fail(s, s.loop.outcome.denied)
      else Rebuild(s)
    case Cancel => s.(cancelled := true)
    case SeeCancel =>
      if !s.cancelled then s
      else if s.loop.AtSelect? then s.(loop := Leaving(s.loop.planned, Broke(false)))
      else if s.loop.Parked? then Fail(s, false)
      else s
    case _ => s
  }

  predicate IsDesks(a: Action) {
    a.Edit? || a.Replan?
  }

  predicate IsPumps(a: Action) {
    a.Lists? || a.MarkRow? || a.PumpEnds? || a.PumpSends?
  }

  predicate IsFollows(a: Action) {
    a.TakeToken? || a.TakeResult? || a.Check? || a.Join? || a.Cancel? || a.SeeCancel?
  }

  /** One step of whoever the action belongs to; one that is not enabled changes nothing. */
  function Next(fallback: string, s: State, a: Action): State {
    if IsDesks(a) then s.(desk := DeskNext(s.desk, a))
    else if IsPumps(a) then s.(crew := CrewNext(s.crew, a, s.loop.Leaving? || s.cancelled))
    else if IsFollows(a) then FollowNext(s, a)
    else ConnectNext(s, a, fallback)
  }

  function Run(fallback: string, s: State, actions: seq<Action>): State {
    if actions == [] then s
    else Next(fallback, Run(fallback, s, actions[..|actions| - 1]), actions[|actions| - 1])
  }

  // ---------------------------------------------------------------- edits

  /** The loop stands somewhere it will call Declared from before it rests again. */
  predicate WillRead(l: Loop) {
    l.Waiting? || l.Reading? || l.Checking? || l.Leaving? || l.Ended?
  }

  predicate Plans(l: Loop) {
    l.Announcing? || l.Building? || l.Planning? || l.Seeded? || l.Starting? || l.AtSelect?
  }

  /** An edit the loop has not read is on its way to it. */
  ghost predicate EditsReach(d: Desk, l: Loop) {
    && d.readEdit <= d.edits
    && (d.readEdit == d.edits ==> d.readContent == d.content)
    && (d.readEdit != d.edits ==> d.owed > 0 || d.token || WillRead(l))
    && (Plans(l) ==> l.planned == d.readContent)
    && (l.Parking? || l.Clearing? || l.Parked? ==> d.readContent == [])
  }

  // ---------------------------------------------------------------- the crew

  function Finished(pumps: seq<Pump>): nat {
    if pumps == [] then 0 else Finished(pumps[..|pumps| - 1]) + (if pumps[|pumps| - 1].stage == Done then 1 else 0)
  }

  predicate HasPumps(l: Loop) {
    l.AtSelect? || l.Checking? || l.Leaving?
  }

  /** The rows on display are those of the plan the loop follows. */
  predicate ShowsPlan(l: Loop) {
    l.Seeded? || l.Starting? || HasPumps(l)
  }

  /** Every row the group holds is on display, of an object of that name that resolves to the group. */
  ghost predicate OnDisplay(c: Crew, fallback: string, g: Group) {
    forall name, k | name in g.names && 0 <= k < |g.names[name]| ::
      var i := g.names[name][k];
      i < |c.shown| && c.shown[i].name == name && KeyOf(c.mapper, c.shown[i], fallback) == Some(g.key)
  }

  /** The pumps alive were started for the rows on display, and each result came from one that ended. */
  ghost predicate CrewInStep(c: Crew, fallback: string, l: Loop) {
    && Finished(c.pumps) == c.results + c.collected
    && (if HasPumps(l) then forall p | 0 <= p < |c.pumps| :: c.pumps[p].cycle == c.cycle && OnDisplay(c, fallback, c.pumps[p].group)
        else AllDone(c.pumps))
    && (ShowsPlan(l) ==> c.shown == l.planned)
  }

  /** It hit a row of its own cycle, of an object of that name that resolves to its group. */
  predicate Belongs(m: Mark, fallback: string) {
    m.pumpCycle == m.rowsCycle && m.row.Some? && m.row.value.name == m.name && KeyOf(m.mapper, m.row.value, fallback) == Some(m.key)
  }

  predicate AllBelong(marks: seq<Mark>, fallback: string) {
    forall i | 0 <= i < |marks| :: Belongs(marks[i], fallback)
  }

  /** A pump that has not listed has marked nothing in this cycle. */
  predicate ListedFirst(c: Crew) {
    forall i | 0 <= i < |c.marks| ::
      c.marks[i].rowsCycle <= c.cycle &&
      (c.marks[i].rowsCycle == c.cycle ==> c.marks[i].pump < |c.pumps| && c.pumps[c.marks[i].pump].stage != Listing)
  }

  ghost predicate Inv(fallback: string, s: State) {
    && EditsReach(s.desk, s.loop)
    && CrewInStep(s.crew, fallback, s.loop)
    && AllBelong(s.crew.marks, fallback)
    && MarksInTime(s.crew, s.loop)
  }

  /** No mark is ahead of its rows, and none is on rows no pump has been started for. */
  predicate MarksInTime(c: Crew, l: Loop) {
    && (HasPumps(l) ==> ListedFirst(c))
    && (forall i | 0 <= i < |c.marks| :: c.marks[i].rowsCycle <= c.cycle)
    && (l.Seeded? || l.Starting? ==> forall i | 0 <= i < |c.marks| :: c.marks[i].rowsCycle < c.cycle)
  }

  lemma {:induction false} FinishedUpdate(pumps: seq<Pump>, p: nat, to: Stage)
    requires p < |pumps|
    ensures Finished(pumps[p := pumps[p].(stage := to)]) ==
            Finished(pumps) - (if pumps[p].stage == Done then 1 else 0) + (if to == Done then 1 else 0)
  {
    var n, next := |pumps| - 1, pumps[p].(stage := to);
    if p == n {
      assert pumps[p := next][..n] == pumps[..n];
    } else {
      assert pumps[p := next][..n] == pumps[..n][p := next];
      FinishedUpdate(pumps[..n], p, to);
    }
  }

  /** Fewer have finished than there are pumps, as long as one has not. */
  lemma {:induction false} FinishedBound(pumps: seq<Pump>)
    ensures Finished(pumps) <= |pumps|
    ensures Finished(pumps) == |pumps| <==> AllDone(pumps)
  {
    if pumps != [] {
      FinishedBound(pumps[..|pumps| - 1]);
      assert forall i | 0 <= i < |pumps| - 1 :: pumps[i] == pumps[..|pumps| - 1][i];
    }
  }

  lemma {:induction false} NoneFinished(pumps: seq<Pump>)
    requires forall p | 0 <= p < |pumps| :: pumps[p].stage == Listing
    ensures Finished(pumps) == 0
  {
    if pumps != [] { NoneFinished(pumps[..|pumps| - 1]); }
  }

  lemma StageKept(c: Crew, fallback: string, l: Loop, p: nat, to: Stage)
    requires CrewInStep(c, fallback, l) && p < |c.pumps| && c.pumps[p].stage != Done && to != Done
    ensures CrewInStep(WithStage(c, p, to), fallback, l)
  {
    FinishedUpdate(c.pumps, p, to);
    var next := WithStage(c, p, to);
    forall q | 0 <= q < |next.pumps| ensures next.pumps[q].cycle == next.cycle && OnDisplay(next, fallback, next.pumps[q].group) {
      assert OnDisplay(c, fallback, c.pumps[q].group);
    }
  }

  lemma SendKept(c: Crew, fallback: string, l: Loop, p: nat)
    requires CrewInStep(c, fallback, l) && p < |c.pumps| && c.pumps[p].stage == Sending
    ensures CrewInStep(WithStage(c, p, Done).(results := c.results + 1), fallback, l)
  {
    FinishedUpdate(c.pumps, p, Done);
    var next := WithStage(c, p, Done).(results := c.results + 1);
    forall q | 0 <= q < |next.pumps| ensures next.pumps[q].cycle == next.cycle && OnDisplay(next, fallback, next.pumps[q].group) {
      assert OnDisplay(c, fallback, c.pumps[q].group);
    }
  }

  lemma CrewKept(c: Crew, fallback: string, l: Loop, a: Action, ending: bool)
    requires CrewInStep(c, fallback, l)
    ensures CrewInStep(CrewNext(c, a, ending), fallback, l)
  {
    var next := CrewNext(c, a, ending);
    if next != c {
      if a.MarkRow? {
        RemarkKept(c, fallback, l, next);
      } else if a.PumpSends? {
        SendKept(c, fallback, l, a.pump);
      } else {
        StageKept(c, fallback, l, a.pump, next.pumps[a.pump].stage);
      }
    }
  }

  lemma RemarkKept(c: Crew, fallback: string, l: Loop, next: Crew)
    requires CrewInStep(c, fallback, l) && next == c.(marks := next.marks)
    ensures CrewInStep(next, fallback, l)
  {
    forall q | 0 <= q < |c.pumps| && HasPumps(l) ensures OnDisplay(next, fallback, c.pumps[q].group) {
      assert OnDisplay(c, fallback, c.pumps[q].group);
    }
  }

  lemma MarksKept(c: Crew, fallback: string, l: Loop, a: Action, ending: bool)
    requires CrewInStep(c, fallback, l) && AllBelong(c.marks, fallback) && MarksInTime(c, l)
    ensures AllBelong(CrewNext(c, a, ending).marks, fallback) && MarksInTime(CrewNext(c, a, ending), l)
  {
    if a.MarkRow? && a.pump < |c.pumps| && c.pumps[a.pump].stage in {Following, Refused} {
      assert HasPumps(l);
      assert OnDisplay(c, fallback, c.pumps[a.pump].group);
    }
  }

  lemma PumpsStart(c: Crew, fallback: string, planned: seq<Object>)
    requires c.shown == planned
    ensures var pumps := PumpsFor(c.mapper, planned, fallback, c.cycle);
            CrewInStep(c.(pumps := pumps, results := 0, collected := 0), fallback, AtSelect(planned))
  {
    var pumps, keys := PumpsFor(c.mapper, planned, fallback, c.cycle), Keys(c.mapper, planned, fallback);
    var next := c.(pumps := pumps, results := 0, collected := 0);
    KeysArePlanned(c.mapper, planned, fallback);
    NoneFinished(pumps);
    forall p | 0 <= p < |pumps| ensures pumps[p].cycle == c.cycle && OnDisplay(next, fallback, pumps[p].group) {
      assert keys[p] in keys;
      GroupOnDisplay(next, fallback, keys[p]);
    }
  }

  lemma GroupOnDisplay(c: Crew, fallback: string, key: GroupKey)
    requires key in Planned(c.mapper, c.shown, fallback)
    ensures OnDisplay(c, fallback, Planned(c.mapper, c.shown, fallback)[key])
  {
    PlannedOwns(c.mapper, c.shown, fallback);
    var g := Planned(c.mapper, c.shown, fallback)[key];
    assert g.key == key;
    forall name, k | name in g.names && 0 <= k < |g.names[name]|
      ensures var i := g.names[name][k];
              i < |c.shown| && c.shown[i].name == name && KeyOf(c.mapper, c.shown[i], fallback) == Some(key)
    {
      RowsOfGroup(c.mapper, c.shown, fallback, key, name, k);
    }
  }

  lemma ConnectKeepsEdits(s: State, a: Action, fallback: string)
    requires EditsReach(s.desk, s.loop)
    ensures EditsReach(ConnectNext(s, a, fallback).desk, ConnectNext(s, a, fallback).loop)
  {
  }

  lemma FollowKeepsEdits(s: State, a: Action)
    requires EditsReach(s.desk, s.loop)
    ensures EditsReach(FollowNext(s, a).desk, FollowNext(s, a).loop)
  {
  }

  lemma ConnectKeepsMarks(s: State, a: Action, fallback: string)
    requires MarksInTime(s.crew, s.loop)
    ensures var t := ConnectNext(s, a, fallback); MarksInTime(t.crew, t.loop) && t.crew.marks == s.crew.marks
  {
  }

  lemma ConnectKeepsCrew(s: State, a: Action, fallback: string)
    requires CrewInStep(s.crew, fallback, s.loop)
    ensures var t := ConnectNext(s, a, fallback); CrewInStep(t.crew, fallback, t.loop)
  {
    if a.StartPumps? && s.loop.Starting? { PumpsStart(s.crew, fallback, s.loop.planned); }
  }

  lemma FollowKeepsCrew(s: State, a: Action, fallback: string)
    requires CrewInStep(s.crew, fallback, s.loop) && MarksInTime(s.crew, s.loop)
    ensures var t := FollowNext(s, a);
            CrewInStep(t.crew, fallback, t.loop) && MarksInTime(t.crew, t.loop) && t.crew.marks == s.crew.marks
  {
    var t := FollowNext(s, a);
    if a.TakeResult? && HasPumps(s.loop) {
      forall p | 0 <= p < |t.crew.pumps| ensures OnDisplay(t.crew, fallback, t.crew.pumps[p].group) {
        assert OnDisplay(s.crew, fallback, s.crew.pumps[p].group);
      }
    }
  }

  lemma InvKept(fallback: string, s: State, a: Action)
    requires Inv(fallback, s)
    ensures Inv(fallback, Next(fallback, s, a))
  {
    if IsPumps(a) {
      CrewKept(s.crew, fallback, s.loop, a, s.loop.Leaving? || s.cancelled);
      MarksKept(s.crew, fallback, s.loop, a, s.loop.Leaving? || s.cancelled);
    } else if IsFollows(a) {
      FollowKeepsEdits(s, a);
      FollowKeepsCrew(s, a, fallback);
    } else if !IsDesks(a) {
      ConnectKeepsEdits(s, a, fallback);
      ConnectKeepsCrew(s, a, fallback);
      ConnectKeepsMarks(s, a, fallback);
    }
  }

  lemma {:induction false} InvAlways(fallback: string, mapper: Mapper, actions: seq<Action>)
    ensures Inv(fallback, Run(fallback, Initial(mapper), actions))
  {
    if actions != [] {
      InvAlways(fallback, mapper, actions[..|actions| - 1]);
      InvKept(fallback, Run(fallback, Initial(mapper), actions[..|actions| - 1]), actions[|actions| - 1]);
    }
  }

  // ---------------------------------------------------------------- what follows from them

  /** Every health written into a row was written by a pump of the cycle that seeded the rows, and
      hit the row of an object of the very name and group it was for; and no pump outlives the
      follow that started it. */
  lemma {:induction false} MarksBelong(fallback: string, mapper: Mapper, actions: seq<Action>)
    ensures var s := Run(fallback, Initial(mapper), actions);
            AllBelong(s.crew.marks, fallback) && (!HasPumps(s.loop) ==> AllDone(s.crew.pumps))
  {
    InvAlways(fallback, mapper, actions);
  }

  /** A pump on its way out never blocks: the result channel always has room for it,
      whether or not anyone is collecting. */
  lemma {:induction false} PumpsNeverBlock(fallback: string, mapper: Mapper, actions: seq<Action>, p: nat)
    requires var s := Run(fallback, Initial(mapper), actions); p < |s.crew.pumps| && s.crew.pumps[p].stage == Sending
    ensures Next(fallback, Run(fallback, Initial(mapper), actions), PumpSends(p)).crew.pumps[p].stage == Done
  {
    InvAlways(fallback, mapper, actions);
    FinishedBound(Run(fallback, Initial(mapper), actions).crew.pumps);
  }

  /** No edit is lost: a loop at rest with nothing left to tell it has read the latest
      checkout, and follows the plan of exactly what that checkout declares. */
  lemma {:induction false} NoReplanLost(fallback: string, mapper: Mapper, actions: seq<Action>)
    ensures var s := Run(fallback, Initial(mapper), actions);
            (s.loop.AtSelect? || s.loop.Parked?) && s.desk.owed == 0 && !s.desk.token ==>
              && s.desk.readEdit == s.desk.edits
              && s.desk.content == (if s.loop.AtSelect? then s.loop.planned else [])
              && (s.loop.AtSelect? ==> s.crew.shown == s.desk.content)
  {
    InvAlways(fallback, mapper, actions);
  }

  // ---------------------------------------------------------------- how cycles end

  /** This step ends a cycle that failed: the checkout could not be read, the cluster not be
      reached, or a pump's connection was lost. */
  predicate CycleFails(s: State, a: Action) {
    !s.cancelled &&
    match a
    case Declare(ok) => s.loop.Reading? && !ok
    case ConnectFails(_) => s.loop.Building?
    case Join => s.loop.Leaving? && s.loop.outcome.Broke? && AllDone(s.crew.pumps)
    case _ => false
  }

  /** This step ends a cycle that was asked to rebuild. */
  predicate CycleRebuilds(s: State, a: Action) {
    !s.cancelled &&
    match a
    case Join => s.loop.Leaving? && s.loop.outcome.Superseded? && AllDone(s.crew.pumps)
    case Unpark => s.loop.Parked? && s.desk.token
    case _ => false
  }

  /** How many cycles have failed since the last one that rebuilt. */
  function FailuresInARow(fallback: string, mapper: Mapper, actions: seq<Action>): nat {
    if actions == [] then 0 else
    var front, a := actions[..|actions| - 1], actions[|actions| - 1];
    var s := Run(fallback, Initial(mapper), front);
    if CycleFails(s, a) then FailuresInARow(fallback, mapper, front) + 1
    else if CycleRebuilds(s, a) then 0
    else FailuresInARow(fallback, mapper, front)
  }

  lemma BackoffMoves(fallback: string, s: State, a: Action)
    ensures Next(fallback, s, a).backoff ==
            if CycleFails(s, a) then NextBackoff(s.backoff) else if CycleRebuilds(s, a) then 0 else s.backoff
  {
  }

  lemma ScheduleSays(failures: nat)
    ensures Schedule(failures) == if failures == 0 then 0 else if Pow2(failures - 1) < 15 then Pow2(failures - 1) else 15
  {
  }

  /** The delay ahead of a cycle depends only on how many failed in a row before it, doubling from a
      second to the cap, and a clean rebuild resets it. */
  lemma {:induction false} BackoffIsCapped(fallback: string, mapper: Mapper, actions: seq<Action>)
    ensures var n := FailuresInARow(fallback, mapper, actions);
            Run(fallback, Initial(mapper), actions).backoff ==
            if n == 0 then 0 else if Pow2(n - 1) < 15 then Pow2(n - 1) else 15
  {
    BackoffFollowsFailures(fallback, mapper, actions);
    ScheduleSays(FailuresInARow(fallback, mapper, actions));
  }

  lemma {:induction false} BackoffFollowsFailures(fallback: string, mapper: Mapper, actions: seq<Action>)
    ensures Run(fallback, Initial(mapper), actions).backoff == Schedule(FailuresInARow(fallback, mapper, actions))
  {
    if actions != [] {
      var front, a := actions[..|actions| - 1], actions[|actions| - 1];
      BackoffFollowsFailures(fallback, mapper, front);
      BackoffMoves(fallback, Run(fallback, Initial(mapper), front), a);
      BackoffFollowsSchedule(FailuresInARow(fallback, mapper, front));
    }
  }
}
