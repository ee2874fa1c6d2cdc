/** What the phase of a watch session says and when it is true: `setPhase` in `cycle`, `park` and
    `run` of `internal/kubewatch/session.go`, against the meanings `internal/kubewatch/health.go`
    gives the phases. */
module WatchPhase {
  import opened Sequences
  import opened WatchPlan
  import opened WatchRun

  /** How the last cycle ended, if one has. */
  datatype Before = NoCycle | AfterFailure(denied: bool) | AfterPark | AfterFollow

  function EndedBy(s: State, a: Action, before: Before): Before {
    if CycleFails(s, a) then
      AfterFailure(match a case ConnectFails(denied) => denied case Join => s.loop.Leaving? && s.loop.outcome.denied case _ => false)
    else if CycleRebuilds(s, a) then (if a.Unpark? then AfterPark else AfterFollow)
    else before
  }

  function LastEnd(fallback: string, mapper: Mapper, actions: seq<Action>): Before {
    if actions == [] then NoCycle else
    var front := actions[..|actions| - 1];
    EndedBy(Run(fallback, Initial(mapper), front), actions[|actions| - 1], LastEnd(fallback, mapper, front))
  }

  /** What the phase still says once a cycle has ended like that. */
  function Left(before: Before): Phase {
    match before
    case NoCycle => Connecting
    case AfterFailure(denied) => if denied then Unauthorized else Reconnecting
    case AfterPark => Idle
    case AfterFollow => Watching
  }

  /** Between the end of one cycle and the next thing said. */
  predicate Between(l: Loop) {
    l.Waiting? || l.Reading? || l.Parking? || l.Announcing?
  }

  /** The phase, given where the loop stands and how the last cycle ended. */
  function PhaseAt(l: Loop, before: Before): Phase {
    if Between(l) then Left(before)
    else match l
      case Clearing => Idle
      case Parked => Idle
      case Building(_) => Connecting
      case Planning(_, _) => Connecting
      case Seeded(_) => Connecting
      case _ => Watching
  }

  lemma PhaseMoves(fallback: string, s: State, a: Action, before: Before)
    requires s.loop.Ended? || s.phase == PhaseAt(s.loop, before)
    ensures var t := Next(fallback, s, a); t.loop.Ended? || t.phase == PhaseAt(t.loop, EndedBy(s, a, before))
  {
    if IsFollows(a) { FollowMoves(s, a, before); } else if !IsDesks(a) && !IsPumps(a) { ConnectMoves(fallback, s, a, before); }
  }

  lemma FollowMoves(s: State, a: Action, before: Before)
    requires s.loop.Ended? || s.phase == PhaseAt(s.loop, before)
    requires IsFollows(a)
    ensures var t := FollowNext(s, a); t.loop.Ended? || t.phase == PhaseAt(t.loop, EndedBy(s, a, before))
  {
  }

  lemma ConnectMoves(fallback: string, s: State, a: Action, before: Before)
    requires s.loop.Ended? || s.phase == PhaseAt(s.loop, before)
    requires !IsFollows(a) && !IsDesks(a) && !IsPumps(a)
    ensures var t := ConnectNext(s, a, fallback); t.loop.Ended? || t.phase == PhaseAt(t.loop, EndedBy(s, a, before))
  {
  }

  /** In every run the phase is settled by where the loop stands, and between a cycle and the next
      by how the last one ended. */
  lemma {:induction false} PhaseFollowsTheLoop(fallback: string, mapper: Mapper, actions: seq<Action>)
    ensures var s := Run(fallback, Initial(mapper), actions);
            s.loop.Ended? || s.phase == PhaseAt(s.loop, LastEnd(fallback, mapper, actions))
  {
    if actions != [] {
      var front, a := actions[..|actions| - 1], actions[|actions| - 1];
      PhaseFollowsTheLoop(fallback, mapper, front);
      PhaseMoves(fallback, Run(fallback, Initial(mapper), front), a, LastEnd(fallback, mapper, front));
    }
  }

  /** "Idle" is said exactly while the session is parked, or has just been woken and has said nothing yet. */
  lemma {:induction false} IdleExactlyWhenParked(fallback: string, mapper: Mapper, actions: seq<Action>)
    requires !Run(fallback, Initial(mapper), actions).loop.Ended?
    ensures var s := Run(fallback, Initial(mapper), actions);
            s.phase == Idle <==>
              s.loop.Clearing? || s.loop.Parked? || (Between(s.loop) && LastEnd(fallback, mapper, actions) == AfterPark)
  {
    PhaseFollowsTheLoop(fallback, mapper, actions);
  }

  /** "Watching" is said exactly from the seeding of a plan to the end of its last pump, with that
      plan's rows on display, and, after a plan was superseded, until the next thing is said: then no
      pump is running. */
  lemma {:induction false} WatchingExactlyWhenFollowing(fallback: string, mapper: Mapper, actions: seq<Action>)
    requires !Run(fallback, Initial(mapper), actions).loop.Ended?
    ensures var s := Run(fallback, Initial(mapper), actions);
            && (s.phase == Watching <==>
                  s.loop.Starting? || HasPumps(s.loop) || (Between(s.loop) && LastEnd(fallback, mapper, actions) == AfterFollow))
            && (s.phase == Watching && !Between(s.loop) ==> s.crew.shown == s.loop.planned)
            && (s.phase == Watching && Between(s.loop) ==> AllDone(s.crew.pumps))
  {
    PhaseFollowsTheLoop(fallback, mapper, actions);
    InvAlways(fallback, mapper, actions);
  }

  // ---------------------------------------------------------------- "every group has listed"

  predicate EveryGroupHasListed(c: Crew) {
    forall p | 0 <= p < |c.pumps| :: c.pumps[p].stage != Listing
  }

  /** Every cycle begins by saying "watching" with no list made: as its pumps start, none has listed,
      so the phase means what its comment says only if the plan has no group at all. */
  lemma {:induction false} WatchingStartsUnlisted(fallback: string, mapper: Mapper, actions: seq<Action>)
    requires Run(fallback, Initial(mapper), actions).loop.Starting?
    ensures var s := Run(fallback, Initial(mapper), actions);
            var t := Next(fallback, s, StartPumps);
            && t.phase == Watching && t.loop == AtSelect(s.loop.planned)
            && |t.crew.pumps| == |Keys(s.crew.mapper, s.loop.planned, fallback)|
            && (forall p | 0 <= p < |t.crew.pumps| :: t.crew.pumps[p].stage == Listing)
            && (EveryGroupHasListed(t.crew) <==> Keys(s.crew.mapper, s.loop.planned, fallback) == [])
  {
    PhaseFollowsTheLoop(fallback, mapper, actions);
    var t := Next(fallback, Run(fallback, Initial(mapper), actions), StartPumps);
    if t.crew.pumps != [] { assert t.crew.pumps[0].stage == Listing; }
  }

  /** A group that has not listed shows what the plan seeded: none of its rows has been written in this cycle. */
  lemma {:induction false} UnlistedRowsAreSeeded(fallback: string, mapper: Mapper, actions: seq<Action>, p: nat)
    requires var s := Run(fallback, Initial(mapper), actions);
             HasPumps(s.loop) && p < |s.crew.pumps| && s.crew.pumps[p].stage == Listing
    ensures var c := Run(fallback, Initial(mapper), actions).crew;
            forall i | 0 <= i < |c.marks| :: !(c.marks[i].pump == p && c.marks[i].rowsCycle == c.cycle)
  {
    InvAlways(fallback, mapper, actions);
  }

  lemma RunSnoc(fallback: string, s: State, actions: seq<Action>, a: Action)
    ensures Run(fallback, s, actions + [a]) == Next(fallback, Run(fallback, s, actions), a)
  {
    assert (actions + [a])[..|actions|] == actions;
  }

  lemma {:induction false} RunConcat(fallback: string, s: State, a: seq<Action>, b: seq<Action>)
    ensures Run(fallback, s, a + b) == Run(fallback, Run(fallback, s, a), b)
  {
    if b == [] {
      assert a + b == a;
    } else {
      assert (a + b)[..|a + b| - 1] == a + b[..|b| - 1];
      RunConcat(fallback, s, a, b[..|b| - 1]);
    }
  }

  lemma TwoSteps(fallback: string, s: State, a: Action, b: Action)
    ensures Run(fallback, s, [a, b]) == Next(fallback, Next(fallback, s, a), b)
  {
    RunSnoc(fallback, s, [a], b);
    assert [a] + [b] == [a, b];
    RunSnoc(fallback, s, [], a);
    assert [] + [a] == [a];
  }

  lemma FourSteps(fallback: string, s: State, a: Action, b: Action, c: Action, d: Action)
    ensures Run(fallback, s, [a, b] + [c, d]) == Next(fallback, Next(fallback, Next(fallback, Next(fallback, s, a), b), c), d)
  {
    RunConcat(fallback, s, [a, b], [c, d]);
    TwoSteps(fallback, s, a, b);
    TwoSteps(fallback, Next(fallback, Next(fallback, s, a), b), c, d);
  }

  /** One object is declared, and the loop has read it. */
  function Declared(o: Object): seq<Action> {
    [Edit([o]), WaitOver] + [Declare(true), SayConnecting]
  }

  /** It connects for the first time, and starts the pumps. */
  function Connected(mapper: Mapper): seq<Action> {
    [Connect(mapper), Seed] + [SayWatching, StartPumps]
  }

  lemma AfterDeclared(fallback: string, mapper: Mapper, o: Object)
    ensures var s := Run(fallback, Initial(mapper), Declared(o)); s.loop == Building([o]) && s.crew == Initial(mapper).crew
  {
    var a := Next(fallback, Initial(mapper), Edit([o]));
    FourSteps(fallback, Initial(mapper), Edit([o]), WaitOver, Declare(true), SayConnecting);
    var b := Next(fallback, a, WaitOver);
    assert b.loop == Reading && b.desk.content == [o];
  }

  lemma AfterSeed(fallback: string, s: State, mapper: Mapper, o: Object)
    requires s.loop == Building([o])
    ensures var t := Next(fallback, Next(fallback, s, Connect(mapper)), Seed);
            t.loop == Seeded([o]) && t.crew.mapper == mapper && t.crew.cycle == s.crew.cycle + 1
  {
  }

  lemma AfterStart(fallback: string, s: State, o: Object)
    requires s.loop == Seeded([o])
    ensures var t := Next(fallback, Next(fallback, s, SayWatching), StartPumps);
            t.phase == Watching && t.loop == AtSelect([o]) && t.crew.pumps == PumpsFor(s.crew.mapper, [o], fallback, s.crew.cycle)
  {
  }

  lemma AfterConnected(fallback: string, mapper: Mapper, s: State, o: Object)
    requires s.loop == Building([o])
    ensures var t := Run(fallback, s, Connected(mapper));
            t.phase == Watching && t.loop == AtSelect([o]) && t.crew.pumps == PumpsFor(mapper, [o], fallback, s.crew.cycle + 1)
  {
    FourSteps(fallback, s, Connect(mapper), Seed, SayWatching, StartPumps);
    AfterSeed(fallback, s, mapper, o);
    AfterStart(fallback, Next(fallback, Next(fallback, s, Connect(mapper)), Seed), o);
  }

  lemma OneServedKey(fallback: string, mapper: Mapper, o: Object)
    requires mapper(o.apiVersion, o.kind).Served?
    ensures |Keys(mapper, [o], fallback)| == 1
  {
    assert [o][..0] == [];
    assert Keys(mapper, [], fallback) == [];
  }

  /** One served object and a first connection: the phase is "watching" and its group has not listed. */
  lemma WatchingBeforeListing(fallback: string, mapper: Mapper, o: Object)
    requires mapper(o.apiVersion, o.kind).Served?
    ensures var s := Run(fallback, Initial(mapper), Declared(o) + Connected(mapper));
            s.phase == Watching && s.loop == AtSelect([o]) && |s.crew.pumps| == 1 && s.crew.pumps[0].stage == Listing
  {
    RunConcat(fallback, Initial(mapper), Declared(o), Connected(mapper));
    AfterDeclared(fallback, mapper, o);
    AfterConnected(fallback, mapper, Run(fallback, Initial(mapper), Declared(o)), o);
    OneServedKey(fallback, mapper, o);
  }
}
