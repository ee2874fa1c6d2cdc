/** What else holds in every run of a watch session, `internal/kubewatch/session.go`: how often it is
    woken, what a parked session shows, when a pump moves on, where a mark lands, and how it ends. */
module WatchLaws {
  import opened Sequences
  import opened WatchPlan
  import opened WatchRun

  // ---------------------------------------------------------------- wakeups

  /** How often the checkout may have changed, how often that was passed on, how often it woke the loop. */
  function Edits(actions: seq<Action>): nat {
    if actions == [] then 0 else Edits(actions[..|actions| - 1]) + if actions[|actions| - 1].Edit? then 1 else 0
  }

  predicate Wakes(s: State, a: Action) {
    (a.TakeToken? && s.loop.AtSelect? && s.desk.token) || (a.Unpark? && s.loop.Parked? && s.desk.token)
  }

  function Wakeups(fallback: string, mapper: Mapper, actions: seq<Action>): nat {
    if actions == [] then 0 else
    var front, a := actions[..|actions| - 1], actions[|actions| - 1];
    Wakeups(fallback, mapper, front) + if Wakes(Run(fallback, Initial(mapper), front), a) then 1 else 0
  }

  lemma WakeupMoves(fallback: string, s: State, a: Action)
    ensures var t := Next(fallback, s, a);
            && t.desk.edits == s.desk.edits + (if a.Edit? then 1 else 0)
            && (if Wakes(s, a) then s.desk.token && !t.desk.token && t.desk.owed == s.desk.owed
                else if a.Replan? && s.desk.owed > 0 then t.desk.token && t.desk.owed == s.desk.owed - 1
                else t.desk.token == s.desk.token && t.desk.owed == s.desk.owed + if a.Edit? then 1 else 0)
  {
  }

  /** An edit wakes the loop once at most: the edits are at least as many as the wakeups, the token that
      waits and the editors who have still to call. */
  lemma {:induction false} WakesOnceAnEdit(fallback: string, mapper: Mapper, actions: seq<Action>)
    ensures var d := Run(fallback, Initial(mapper), actions).desk;
            && d.edits == Edits(actions)
            && Wakeups(fallback, mapper, actions) + (if d.token then 1 else 0) + d.owed <= Edits(actions)
  {
    if actions != [] {
      var front, a := actions[..|actions| - 1], actions[|actions| - 1];
      WakesOnceAnEdit(fallback, mapper, front);
      WakeupMoves(fallback, Run(fallback, Initial(mapper), front), a);
    }
  }

  /** What is declared when is what the last edit left. */
  lemma {:induction false} ContentIsTheLastEdit(fallback: string, mapper: Mapper, actions: seq<Action>, content: seq<Object>)
    ensures Run(fallback, Initial(mapper), actions + [Edit(content)]).desk.content == content
    ensures !Run(fallback, Initial(mapper), actions).desk.token && Run(fallback, Initial(mapper), actions).desk.owed == 0 ==>
              Run(fallback, Initial(mapper), actions + [Edit(content)]).desk.owed == 1
  {
    assert (actions + [Edit(content)])[..|actions|] == actions;
  }

  // ---------------------------------------------------------------- parking

  predicate ParkedRight(s: State) {
    && (s.loop.Parked? ==> s.crew.shown == [])
    && (Plans(s.loop) || HasPumps(s.loop) ==> s.loop.planned != [])
  }

  lemma ParkedRightKept(fallback: string, s: State, a: Action)
    requires ParkedRight(s)
    ensures ParkedRight(Next(fallback, s, a))
  {
    if IsPumps(a) { PumpsShowAlike(s.crew, a, s.loop.Leaving? || s.cancelled); }
    else if IsFollows(a) { FollowParks(s, a); }
    else if !IsDesks(a) { ConnectParks(s, a, fallback); }
  }

  lemma PumpsShowAlike(c: Crew, a: Action, ending: bool)
    ensures CrewNext(c, a, ending).shown == c.shown && CrewNext(c, a, ending).cycle == c.cycle
  {
  }

  lemma FollowParks(s: State, a: Action)
    requires ParkedRight(s)
    ensures ParkedRight(FollowNext(s, a))
  {
  }

  lemma ConnectParks(s: State, a: Action, fallback: string)
    requires ParkedRight(s)
    ensures ParkedRight(ConnectNext(s, a, fallback))
  {
  }

  /** In every run a parked session shows no rows, and one that connects has something declared. */
  lemma {:induction false} ParkedShowsNothing(fallback: string, mapper: Mapper, actions: seq<Action>)
    ensures ParkedRight(Run(fallback, Initial(mapper), actions))
  {
    if actions != [] {
      ParkedShowsNothing(fallback, mapper, actions[..|actions| - 1]);
      ParkedRightKept(fallback, Run(fallback, Initial(mapper), actions[..|actions| - 1]), actions[|actions| - 1]);
    }
  }

  /** How often rows have been seeded or cleared. */
  function Replacements(fallback: string, mapper: Mapper, actions: seq<Action>): nat {
    if actions == [] then 0 else
    var front, a := actions[..|actions| - 1], actions[|actions| - 1];
    var l := Run(fallback, Initial(mapper), front).loop;
    Replacements(fallback, mapper, front) + if (a.Seed? && l.Planning?) || (a.Clear? && l.Clearing?) then 1 else 0
  }

  lemma CycleMoves(fallback: string, s: State, a: Action)
    ensures Next(fallback, s, a).crew.cycle == s.crew.cycle + if (a.Seed? && s.loop.Planning?) || (a.Clear? && s.loop.Clearing?) then 1 else 0
  {
    if IsPumps(a) { PumpsShowAlike(s.crew, a, s.loop.Leaving? || s.cancelled); }
  }

  /** The cycle by which marks are told apart counts exactly these. */
  lemma {:induction false} CycleCounts(fallback: string, mapper: Mapper, actions: seq<Action>)
    ensures Run(fallback, Initial(mapper), actions).crew.cycle == Replacements(fallback, mapper, actions)
  {
    if actions != [] {
      CycleCounts(fallback, mapper, actions[..|actions| - 1]);
      CycleMoves(fallback, Run(fallback, Initial(mapper), actions[..|actions| - 1]), actions[|actions| - 1]);
    }
  }

  // ---------------------------------------------------------------- pumps

  /** A pump that was refused waits out the session, and one that has not been answered its answer:
      only the end of their context ends either. */
  lemma PumpsWait(c: Crew, a: Action, p: nat)
    requires p < |c.pumps| && IsPumps(a)
    ensures |CrewNext(c, a, false).pumps| == |c.pumps|
    ensures c.pumps[p].stage.Refused? ==> CrewNext(c, a, false).pumps[p] == c.pumps[p]
    ensures c.pumps[p].stage.Listing? && !(a.Lists? && a.pump == p) ==> CrewNext(c, a, false).pumps[p] == c.pumps[p]
  {
  }

  /** What its first answer makes of a pump. */
  lemma AnswersDecide(c: Crew, p: nat, answer: Answer, ending: bool)
    requires p < |c.pumps| && c.pumps[p].stage.Listing?
    ensures CrewNext(c, Lists(p, answer), ending).pumps[p].stage ==
            match answer case Listed => Following case MayNotRead => Refused case Broken => Sending
  {
  }

  /** Ending ends any pump that has not gone, and a pump that follows ends by itself. */
  lemma PumpsEnd(c: Crew, p: nat)
    requires p < |c.pumps| && (c.pumps[p].stage.Listing? || c.pumps[p].stage.Following? || c.pumps[p].stage.Refused?)
    ensures CrewNext(c, PumpEnds(p), true).pumps[p].stage.Sending?
    ensures c.pumps[p].stage.Following? ==> CrewNext(c, PumpEnds(p), false).pumps[p].stage.Sending?
  {
  }

  /** A mark lands: whenever a pump past its list marks a row of its group, that row is there, of an
      object of that name, and the mark is made. */
  lemma {:induction false} MarksLand(fallback: string, mapper: Mapper, actions: seq<Action>, p: nat, name: string, k: nat)
    requires var c := Run(fallback, Initial(mapper), actions).crew;
             && p < |c.pumps| && (c.pumps[p].stage.Following? || c.pumps[p].stage.Refused?)
             && name in c.pumps[p].group.names && k < |c.pumps[p].group.names[name]|
    ensures var s := Run(fallback, Initial(mapper), actions);
            var i := s.crew.pumps[p].group.names[name][k];
            && i < |s.crew.shown| && s.crew.shown[i].name == name
            && Next(fallback, s, MarkRow(p, name, k)).crew.marks ==
               s.crew.marks + [Mark(p, s.crew.cycle, s.crew.pumps[p].group.key, name, s.crew.cycle, Some(s.crew.shown[i]), s.crew.mapper)]
  {
    InvAlways(fallback, mapper, actions);
    var s := Run(fallback, Initial(mapper), actions);
    assert HasPumps(s.loop);
    assert OnDisplay(s.crew, fallback, s.crew.pumps[p].group);
  }

  // ---------------------------------------------------------------- the end

  lemma EndMoves(fallback: string, s: State, a: Action)
    requires s.loop.Ended? ==> s.cancelled
    ensures Next(fallback, s, a).loop.Ended? ==> Next(fallback, s, a).cancelled
    ensures s.cancelled ==> Next(fallback, s, a).cancelled
    ensures s.loop.Ended? ==> Next(fallback, s, a).loop.Ended? && Next(fallback, s, a).phase == s.phase
  {
    if IsFollows(a) { FollowEnds(s, a); } else if !IsDesks(a) && !IsPumps(a) { ConnectEnds(s, a, fallback); }
  }

  lemma FollowEnds(s: State, a: Action)
    requires s.loop.Ended? ==> s.cancelled
    ensures FollowNext(s, a).loop.Ended? ==> FollowNext(s, a).cancelled
    ensures s.cancelled ==> FollowNext(s, a).cancelled
    ensures s.loop.Ended? ==> FollowNext(s, a).loop.Ended? && FollowNext(s, a).phase == s.phase
  {
  }

  lemma ConnectEnds(s: State, a: Action, fallback: string)
    requires s.loop.Ended? ==> s.cancelled
    ensures ConnectNext(s, a, fallback).loop.Ended? ==> ConnectNext(s, a, fallback).cancelled
    ensures s.cancelled ==> ConnectNext(s, a, fallback).cancelled
    ensures s.loop.Ended? ==> ConnectNext(s, a, fallback).loop.Ended? && ConnectNext(s, a, fallback).phase == s.phase
  {
  }

  /** In every run the loop ends only when the session was cancelled, and for good. */
  lemma {:induction false} EndsOnlyWhenCancelled(fallback: string, mapper: Mapper, actions: seq<Action>)
    ensures Run(fallback, Initial(mapper), actions).loop.Ended? ==> Run(fallback, Initial(mapper), actions).cancelled
  {
    if actions != [] {
      EndsOnlyWhenCancelled(fallback, mapper, actions[..|actions| - 1]);
      EndMoves(fallback, Run(fallback, Initial(mapper), actions[..|actions| - 1]), actions[|actions| - 1]);
    }
  }

  /** Once cancelled the loop starts no other cycle: whatever it waits for next ends it, or has it leave. */
  lemma CancelIsHeard(fallback: string, s: State)
    requires s.cancelled
    ensures s.loop.Waiting? ==> Next(fallback, s, WaitOver).loop.Ended?
    ensures s.loop.Parked? ==> Next(fallback, s, SeeCancel).loop.Ended?
    ensures s.loop.AtSelect? ==> Next(fallback, s, SeeCancel).loop == Leaving(s.loop.planned, Broke(false))
    ensures s.loop.Leaving? && AllDone(s.crew.pumps) ==> Next(fallback, s, Join).loop.Ended?
    ensures s.loop.Reading? ==> Next(fallback, s, Declare(false)).loop.Ended?
    ensures forall denied | s.loop.Building? :: Next(fallback, s, ConnectFails(denied)).loop.Ended?
    ensures s.loop.Parked? && s.desk.token ==> Next(fallback, s, Unpark).loop.Ended?
  {
  }

  lemma CancelCancels(fallback: string, s: State)
    ensures Next(fallback, s, Cancel) == s.(cancelled := true)
    ensures !s.cancelled ==> Next(fallback, s, SeeCancel) == s
  {
  }

  /** Woken while it follows, the loop reads the checkout and keeps its connections when what is declared is
      what it planned for; it leaves to rebuild exactly when that has changed or cannot be read. */
  lemma RebuildsExactlyWhenChanged(fallback: string, s: State, ok: bool)
    requires s.loop.AtSelect? && s.desk.token
    ensures var t := Next(fallback, s, TakeToken); t == s.(desk := s.desk.(token := false), loop := Checking(s.loop.planned))
    ensures var t := Next(fallback, Next(fallback, s, TakeToken), Check(ok));
            && t.crew == s.crew && t.phase == s.phase && t.backoff == s.backoff && t.desk.content == s.desk.content
            && t.loop == if ok && s.desk.content == s.loop.planned then s.loop else Leaving(s.loop.planned, Superseded)
  {
  }

  /** The first pump to give up ends the cycle for all of them, and no other is collected. */
  lemma FirstResultEndsTheCycle(fallback: string, s: State, denied: bool)
    requires s.loop.AtSelect? && s.crew.results > 0
    ensures var t := Next(fallback, s, TakeResult(denied));
            && t.loop == Leaving(s.loop.planned, Broke(denied)) && t.desk == s.desk
            && t.crew == s.crew.(results := s.crew.results - 1, collected := s.crew.collected + 1)
  {
  }
}
