/** That the run loop of a watch session gets somewhere, `internal/kubewatch/session.go`: from wherever
    it and its pumps are, if nobody edits and nothing more fails, it comes to rest following exactly
    what the checkout declares. */
module WatchProgress {
  import opened Sequences
  import opened WatchPlan
  import opened WatchRun
  import WatchPhase

  // ---------------------------------------------------------------- at rest

  predicate Reads(p: Pump) {
    p.stage.Following? || p.stage.Refused?
  }

  predicate AllReading(pumps: seq<Pump>) {
    forall i | 0 <= i < |pumps| :: Reads(pumps[i])
  }

  /** Nobody owes the loop anything, and it waits: with nothing to watch, or with the rows of what is
      declared on display and every group's pump past its list. */
  predicate AtRest(s: State) {
    && s.desk.owed == 0 && !s.desk.token
    && if s.loop.Parked? then s.desk.content == []
       else s.loop == AtSelect(s.desk.content) && s.crew.shown == s.desk.content && AllReading(s.crew.pumps)
  }

  // ---------------------------------------------------------------- what is left to do

  function StageWork(stage: Stage): nat {
    match stage
    case Listing => 3
    case Following => 2
    case Refused => 2
    case Sending => 1
    case Done => 0
  }

  function PumpWork(pumps: seq<Pump>): nat {
    if pumps == [] then 0 else PumpWork(pumps[..|pumps| - 1]) + StageWork(pumps[|pumps| - 1].stage)
  }

  lemma {:induction false} PumpWorkUpdate(pumps: seq<Pump>, p: nat, to: Stage)
    requires p < |pumps|
    ensures PumpWork(pumps[p := pumps[p].(stage := to)]) == PumpWork(pumps) - StageWork(pumps[p].stage) + StageWork(to)
  {
    var n, next := |pumps| - 1, pumps[p].(stage := to);
    if p == n {
      assert pumps[p := next][..n] == pumps[..n];
    } else {
      assert pumps[p := next][..n] == pumps[..n][p := next];
      PumpWorkUpdate(pumps[..n], p, to);
    }
  }

  predicate Hurt(c: Crew) {
    c.results > 0 || exists i | 0 <= i < |c.pumps| :: c.pumps[i].stage.Sending? || c.pumps[i].stage.Done?
  }

  /** How far from another round the loop is. */
  function Rounds(s: State): nat {
    match s.loop
    case Checking(_) => 3
    case AtSelect(_) => if Hurt(s.crew) then 2 else 0
    case Leaving(_, _) => 1
    case _ => 0
  }

  /** How far along its round. */
  function Along(l: Loop): nat {
    match l
    case Waiting => 9
    case Reading => 8
    case Parking => 7
    case Clearing => 6
    case Announcing(_) => 5
    case Building(_) => 4
    case Planning(_, _) => 3
    case Seeded(_) => 2
    case Starting(_) => 1
    case _ => 0
  }

  // ---------------------------------------------------------------- one step on

  /** Steps in which nobody edits, nobody cancels and nothing fails that has not failed already. */
  predicate Friendly(a: Action) {
    match a
    case Replan => true
    case WaitOver => true
    case Declare(ok) => ok
    case SayIdle => true
    case Clear => true
    case Unpark => true
    case SayConnecting => true
    case Connect(_) => true
    case Seed => true
    case SayWatching => true
    case StartPumps => true
    case TakeToken => true
    case TakeResult(_) => true
    case Check(ok) => ok
    case Join => true
    case Lists(_, answer) => answer.Listed?
    case PumpEnds(_) => true
    case PumpSends(_) => true
    case _ => false
  }

  /** The first result is collected only to leave. */
  predicate NoneCollected(s: State) {
    s.loop.AtSelect? || s.loop.Checking? ==> s.crew.collected == 0
  }

  /** A state from which the loop goes on. */
  ghost predicate Alive(fallback: string, s: State) {
    Inv(fallback, s) && NoneCollected(s) && !s.cancelled && !s.loop.Ended?
  }

  lemma NoneCollectedKept(fallback: string, s: State, a: Action)
    requires NoneCollected(s)
    ensures NoneCollected(Next(fallback, s, a))
  {
    if IsPumps(a) { PumpsCollectNothing(s.crew, a, s.loop.Leaving? || s.cancelled); }
    else if IsFollows(a) { FollowCollects(s, a); }
    else if !IsDesks(a) { ConnectCollects(s, a, fallback); }
  }

  lemma PumpsCollectNothing(c: Crew, a: Action, ending: bool)
    ensures CrewNext(c, a, ending).collected == c.collected && |CrewNext(c, a, ending).pumps| == |c.pumps|
  {
  }

  lemma FollowCollects(s: State, a: Action)
    requires NoneCollected(s)
    ensures NoneCollected(FollowNext(s, a))
  {
  }

  lemma ConnectCollects(s: State, a: Action, fallback: string)
    requires NoneCollected(s)
    ensures NoneCollected(ConnectNext(s, a, fallback))
  {
  }

  lemma {:induction false} NoneCollectedAlways(fallback: string, mapper: Mapper, actions: seq<Action>)
    ensures NoneCollected(Run(fallback, Initial(mapper), actions))
  {
    if actions != [] {
      NoneCollectedAlways(fallback, mapper, actions[..|actions| - 1]);
      NoneCollectedKept(fallback, Run(fallback, Initial(mapper), actions[..|actions| - 1]), actions[|actions| - 1]);
    }
  }

  lemma StaysAlive(fallback: string, s: State, a: Action)
    requires Alive(fallback, s) && !Next(fallback, s, a).cancelled && !Next(fallback, s, a).loop.Ended?
    ensures Alive(fallback, Next(fallback, s, a))
  {
    InvKept(fallback, s, a);
    NoneCollectedKept(fallback, s, a);
  }

  /** Edits to pass on, a token to take, rounds, the way round, and the pumps. */
  datatype Left = Left(owed: nat, token: nat, rounds: nat, along: nat, pumps: nat)

  function LeftOf(s: State): Left {
    Left(s.desk.owed, if s.desk.token then 1 else 0, Rounds(s), Along(s.loop), PumpWork(s.crew.pumps))
  }

  predicate Less(a: Left, b: Left) {
    if a.owed != b.owed then a.owed < b.owed
    else if a.token != b.token then a.token < b.token
    else if a.rounds != b.rounds then a.rounds < b.rounds
    else if a.along != b.along then a.along < b.along
    else a.pumps < b.pumps
  }

  /** One step brings it nearer, and changes nothing of the checkout. */
  ghost predicate Nearer(fallback: string, s: State, t: State) {
    Alive(fallback, t) && t.desk.content == s.desk.content && t.desk.edits == s.desk.edits && Less(LeftOf(t), LeftOf(s))
  }

  lemma ReplanNears(fallback: string, s: State)
    requires Alive(fallback, s) && s.desk.owed > 0
    ensures Nearer(fallback, s, Next(fallback, s, Replan))
  {
    StaysAlive(fallback, s, Replan);
  }

  /** The loop's own next step, where it waits for nobody. */
  function Own(l: Loop, mapper: Mapper): Action {
    match l
    case Waiting => WaitOver
    case Reading => Declare(true)
    case Parking => SayIdle
    case Clearing => Clear
    case Announcing(_) => SayConnecting
    case Building(_) => Connect(mapper)
    case Planning(_, _) => Seed
    case Seeded(_) => SayWatching
    case Starting(_) => StartPumps
    case _ => Check(true)
  }

  lemma RoundNears(fallback: string, s: State)
    requires Alive(fallback, s) && Along(s.loop) > 1
    ensures var t := ConnectNext(s, Own(s.loop, s.crew.mapper), fallback);
            && t.desk.(readEdit := s.desk.readEdit, readContent := s.desk.readContent) == s.desk && !t.cancelled && !t.loop.Ended?
            && Rounds(t) == 0 && Along(t.loop) < Along(s.loop)
  {
  }

  lemma StartNears(fallback: string, s: State)
    requires Alive(fallback, s) && s.loop.Starting?
    ensures Nearer(fallback, s, Next(fallback, s, StartPumps))
  {
    StaysAlive(fallback, s, StartPumps);
    assert !Hurt(Next(fallback, s, StartPumps).crew);
  }

  lemma CheckNears(fallback: string, s: State)
    requires Alive(fallback, s) && s.loop.Checking?
    ensures Nearer(fallback, s, Next(fallback, s, Check(true)))
  {
    StaysAlive(fallback, s, Check(true));
  }

  lemma OwnNears(fallback: string, s: State)
    requires Alive(fallback, s) && Along(s.loop) > 1
    ensures Nearer(fallback, s, Next(fallback, s, Own(s.loop, s.crew.mapper)))
  {
    RoundNears(fallback, s);
    StaysAlive(fallback, s, Own(s.loop, s.crew.mapper));
  }

  lemma TokenNears(fallback: string, s: State)
    requires Alive(fallback, s) && s.desk.token && (s.loop.Parked? || s.loop.AtSelect?)
    ensures Nearer(fallback, s, Next(fallback, s, if s.loop.Parked? then Unpark else TakeToken))
  {
    StaysAlive(fallback, s, if s.loop.Parked? then Unpark else TakeToken);
  }

  // ---------------------------------------------------------------- the pumps

  /** A pump's step that changes its stage and no more than that, and perhaps the results. */
  lemma StageNears(fallback: string, s: State, a: Action, p: nat, to: Stage)
    requires Alive(fallback, s) && IsPumps(a) && p < |s.crew.pumps|
    requires var c := CrewNext(s.crew, a, s.loop.Leaving?); c == WithStage(s.crew, p, to).(results := c.results)
    requires StageWork(to) < StageWork(s.crew.pumps[p].stage)
    requires s.loop.AtSelect? ==> (Hurt(CrewNext(s.crew, a, s.loop.Leaving?)) <==> Hurt(s.crew))
    ensures Nearer(fallback, s, Next(fallback, s, a))
  {
    StaysAlive(fallback, s, a);
    PumpWorkUpdate(s.crew.pumps, p, to);
  }

  lemma ListingNears(fallback: string, s: State, p: nat)
    requires Alive(fallback, s) && s.loop.AtSelect? && !Hurt(s.crew) && p < |s.crew.pumps| && s.crew.pumps[p].stage.Listing?
    ensures Nearer(fallback, s, Next(fallback, s, Lists(p, Listed)))
  {
    StageNears(fallback, s, Lists(p, Listed), p, Following);
  }

  lemma EndingNears(fallback: string, s: State, p: nat)
    requires Alive(fallback, s) && s.loop.Leaving? && p < |s.crew.pumps|
    requires !s.crew.pumps[p].stage.Done? && !s.crew.pumps[p].stage.Sending?
    ensures Nearer(fallback, s, Next(fallback, s, PumpEnds(p)))
  {
    StageNears(fallback, s, PumpEnds(p), p, Sending);
  }

  lemma SendingNears(fallback: string, s: State, p: nat)
    requires Alive(fallback, s) && (s.loop.AtSelect? || s.loop.Leaving?) && p < |s.crew.pumps| && s.crew.pumps[p].stage.Sending?
    ensures Nearer(fallback, s, Next(fallback, s, PumpSends(p)))
  {
    FinishedBound(s.crew.pumps);
    var c := CrewNext(s.crew, PumpSends(p), s.loop.Leaving?);
    assert c.pumps[p].stage.Done?;
    StageNears(fallback, s, PumpSends(p), p, Done);
  }

  lemma ResultNears(fallback: string, s: State)
    requires Alive(fallback, s) && s.loop.AtSelect? && s.crew.results > 0 && !s.desk.token
    ensures Nearer(fallback, s, Next(fallback, s, TakeResult(false)))
  {
    StaysAlive(fallback, s, TakeResult(false));
  }

  lemma JoinNears(fallback: string, s: State)
    requires Alive(fallback, s) && s.loop.Leaving? && AllDone(s.crew.pumps)
    ensures Nearer(fallback, s, Next(fallback, s, Join))
  {
    StaysAlive(fallback, s, Join);
  }

  /** While the loop is at its select, a pump that has gone has left its result. */
  lemma {:induction false} GoneLeavesResult(pumps: seq<Pump>, p: nat)
    requires p < |pumps| && pumps[p].stage.Done?
    ensures Finished(pumps) > 0
  {
    if p < |pumps| - 1 { GoneLeavesResult(pumps[..|pumps| - 1], p); }
  }

  // ---------------------------------------------------------------- to rest

  /** The next step toward rest. */
  lemma Onward(fallback: string, s: State) returns (a: Action)
    requires Alive(fallback, s) && !AtRest(s)
    ensures Friendly(a) && Nearer(fallback, s, Next(fallback, s, a))
  {
    if s.desk.owed > 0 {
      a := Replan;
      ReplanNears(fallback, s);
    } else if Along(s.loop) > 1 {
      a := Own(s.loop, s.crew.mapper);
      OwnNears(fallback, s);
    } else if s.loop.Starting? {
      a := StartPumps;
      StartNears(fallback, s);
    } else if s.loop.Checking? {
      a := Check(true);
      CheckNears(fallback, s);
    } else if s.loop.Leaving? {
      a := OutOfTheWay(fallback, s);
    } else if s.desk.token {
      a := if s.loop.Parked? then Unpark else TakeToken;
      TokenNears(fallback, s);
    } else {
      a := AtTheSelect(fallback, s);
    }
  }

  /** A loop that leaves waits for its pumps. */
  lemma OutOfTheWay(fallback: string, s: State) returns (a: Action)
    requires Alive(fallback, s) && s.loop.Leaving?
    ensures Friendly(a) && Nearer(fallback, s, Next(fallback, s, a))
  {
    if AllDone(s.crew.pumps) {
      a := Join;
      JoinNears(fallback, s);
    } else {
      var p: nat :| p < |s.crew.pumps| && !s.crew.pumps[p].stage.Done?;
      if s.crew.pumps[p].stage.Sending? {
        a := PumpSends(p);
        SendingNears(fallback, s, p);
      } else {
        a := PumpEnds(p);
        EndingNears(fallback, s, p);
      }
    }
  }

  lemma AtTheSelect(fallback: string, s: State) returns (a: Action)
    requires Alive(fallback, s) && s.loop.AtSelect? && s.desk.owed == 0 && !s.desk.token && !AtRest(s)
    ensures Friendly(a) && Nearer(fallback, s, Next(fallback, s, a))
  {
    if s.crew.results > 0 {
      a := TakeResult(false);
      ResultNears(fallback, s);
    } else if p: nat :| p < |s.crew.pumps| && s.crew.pumps[p].stage.Sending? {
      a := PumpSends(p);
      SendingNears(fallback, s, p);
    } else {
      if p: nat :| p < |s.crew.pumps| && s.crew.pumps[p].stage.Done? { GoneLeavesResult(s.crew.pumps, p); }
      var p: nat :| p < |s.crew.pumps| && s.crew.pumps[p].stage.Listing?;
      a := Lists(p, Listed);
      ListingNears(fallback, s, p);
    }
  }

  predicate AllFriendly(moves: seq<Action>) {
    forall i | 0 <= i < |moves| :: Friendly(moves[i])
  }

  lemma RunCons(fallback: string, s: State, a: Action, moves: seq<Action>)
    ensures Run(fallback, s, [a] + moves) == Run(fallback, Next(fallback, s, a), moves)
  {
    WatchPhase.RunConcat(fallback, s, [a], moves);
    assert [a][..0] == [];
  }

  lemma {:induction false} GoesToRest(fallback: string, s: State) returns (moves: seq<Action>)
    requires Alive(fallback, s)
    ensures AllFriendly(moves)
    ensures var t := Run(fallback, s, moves); AtRest(t) && t.desk.content == s.desk.content && t.desk.edits == s.desk.edits
    decreases LeftOf(s).owed, LeftOf(s).token, LeftOf(s).rounds, LeftOf(s).along, LeftOf(s).pumps
  {
    if AtRest(s) {
      moves := [];
    } else {
      var a := Onward(fallback, s);
      var rest := GoesToRest(fallback, Next(fallback, s, a));
      RunCons(fallback, s, a, rest);
      moves := [a] + rest;
    }
  }

  /** Wherever a run has come to, unless the session was cancelled, it can come to rest: with nobody
      editing and nothing more failing, the loop, its pumps and the editors who still owe it a word
      take it to where it follows exactly what the checkout declares, or waits with nothing declared. */
  lemma {:induction false} AlwaysCanSettle(fallback: string, mapper: Mapper, actions: seq<Action>) returns (moves: seq<Action>)
    requires var s := Run(fallback, Initial(mapper), actions); !s.cancelled && !s.loop.Ended?
    ensures AllFriendly(moves)
    ensures var s := Run(fallback, Initial(mapper), actions); var t := Run(fallback, s, moves);
            AtRest(t) && t.desk.content == s.desk.content && t.desk.edits == s.desk.edits
  {
    InvAlways(fallback, mapper, actions);
    NoneCollectedAlways(fallback, mapper, actions);
    moves := GoesToRest(fallback, Run(fallback, Initial(mapper), actions));
  }
}
