/** That a change in a watch session reaches the panel, `internal/kubewatch/session.go` and
    `frontend/src/lib/useHealth.ts`: from wherever sessions, announcers, events and the panel are, if
    nothing more changes and calls succeed, everything under way settles. */
module HealthProgress {
  import opened Sequences
  import opened HealthPipeline

  // ---------------------------------------------------------------- what is under way

  /** Each stage outweighs what it leads to: a change owed, the channel full, the event on its way. */
  function SessionWork(x: Session): nat {
    8 * x.owed + (if x.dirty then 7 else 0)
    + (match x.announcer case Publishing => 6 case Resting => 1 case Listening => 0)
    + 4 * x.events
  }

  function PanelWork(p: Panel): nat {
    (if p.stale then 3 else 0) + match p.reader case Asked(_) => 2 case Answered(_, _) => 1 case Idle => 0
  }

  function SessionsWork(sessions: seq<Session>): nat {
    if sessions == [] then 0 else SessionsWork(sessions[..|sessions| - 1]) + SessionWork(sessions[|sessions| - 1])
  }

  function Work(x: State): nat {
    SessionsWork(x.sessions) + PanelWork(x.panel)
  }

  lemma {:induction false} SessionsWorkUpdate(sessions: seq<Session>, s: nat, y: Session)
    requires s < |sessions|
    ensures SessionsWork(sessions[s := y]) == SessionsWork(sessions) - SessionWork(sessions[s]) + SessionWork(y)
  {
    var n := |sessions| - 1;
    if s == n {
      assert sessions[s := y][..n] == sessions[..n];
    } else {
      assert sessions[s := y][..n] == sessions[..n][s := y];
      SessionsWorkUpdate(sessions[..n], s, y);
    }
  }

  /** Nothing of any session is under way, and no read. */
  predicate Settled(x: State) {
    x.panel.reader.Idle? && forall s | 0 <= s < |x.sessions| :: SettledSession(x.sessions[s])
  }

  predicate SettledSession(y: Session) {
    y.owed == 0 && !y.dirty && y.announcer.Listening? && y.events == 0
  }

  // ---------------------------------------------------------------- one step on

  /** The next step of a session that has not settled. */
  function OwnStep(y: Session, s: nat): Action {
    if y.owed > 0 then Notify(s)
    else if y.announcer.Publishing? then Publish(s)
    else if y.announcer.Resting? then Rest(s)
    else if y.dirty then TakeDirty(s)
    else Deliver(s)
  }

  lemma OwnStepWorks(y: Session, s: nat)
    requires !SettledSession(y)
    ensures var z := SessionNext(y, OwnStep(y, s));
            && z.version == y.version
            && SessionWork(z) + (if OwnStep(y, s).Deliver? then 4 else 1) <= SessionWork(y)
  {
  }

  lemma ReadWorks(p: Panel)
    requires LoopInStep(p)
    ensures PanelWork(Read(p)) <= PanelWork(p) + 3
    ensures Read(p).target == p.target
  {
  }

  /** Steps of what is under way: no change, no selection, no call that fails. */
  predicate Onward(a: Action) {
    a.Notify? || a.TakeDirty? || a.Publish? || a.Rest? || a.Deliver? || a == Sample(true) || a.Return?
  }

  /** One step less to do, and neither the sessions' state nor the selection moved. */
  ghost predicate Nearer(w: World, x: State, y: State) {
    && Inv(w, y) && Work(y) < Work(x) && y.panel.target == x.panel.target && SameVersions(x.sessions, y.sessions)
  }

  predicate SameVersions(a: seq<Session>, b: seq<Session>) {
    |a| == |b| && forall s | 0 <= s < |a| :: a[s].version == b[s].version
  }

  lemma SessionNears(w: World, x: State, s: nat)
    requires Inv(w, x) && s < |x.sessions| && !SettledSession(x.sessions[s])
    ensures Nearer(w, x, Next(w, x, OwnStep(x.sessions[s], s)))
  {
    var a := OwnStep(x.sessions[s], s);
    InvKept(w, x, a);
    OwnStepWorks(x.sessions[s], s);
    SessionsWorkUpdate(x.sessions, s, SessionNext(x.sessions[s], a));
    ReadWorks(x.panel);
  }

  lemma PanelNears(w: World, x: State)
    requires Inv(w, x) && !x.panel.reader.Idle?
    ensures Nearer(w, x, Next(w, x, if x.panel.reader.Asked? then Sample(true) else Return))
  {
    InvKept(w, x, if x.panel.reader.Asked? then Sample(true) else Return);
  }

  // ---------------------------------------------------------------- all the way

  predicate AllOnward(moves: seq<Action>) {
    forall i | 0 <= i < |moves| :: Onward(moves[i])
  }

  lemma {:induction false} RunCons(w: World, x: State, a: Action, moves: seq<Action>)
    ensures Run(w, x, [a] + moves) == Run(w, Next(w, x, a), moves)
  {
    if moves == [] {
      assert [a] + moves == [a] && [a][..0] == [];
    } else {
      assert ([a] + moves)[..|moves|] == [a] + moves[..|moves| - 1];
      RunCons(w, x, a, moves[..|moves| - 1]);
    }
  }

  lemma {:induction false} Settles(w: World, x: State) returns (moves: seq<Action>)
    requires Inv(w, x)
    ensures AllOnward(moves) && |moves| <= Work(x)
    ensures var y := Run(w, x, moves); Settled(y) && y.panel.target == x.panel.target && SameVersions(x.sessions, y.sessions)
    decreases Work(x)
  {
    if Settled(x) { return []; }
    var a: Action;
    if !x.panel.reader.Idle? {
      a := if x.panel.reader.Asked? then Sample(true) else Return;
      PanelNears(w, x);
    } else {
      var s: nat :| s < |x.sessions| && !SettledSession(x.sessions[s]);
      a := OwnStep(x.sessions[s], s);
      SessionNears(w, x, s);
    }
    var rest := Settles(w, Next(w, x, a));
    RunCons(w, x, a, rest);
    moves := [a] + rest;
  }

  /** Wherever a run has come to, it can settle, in a bounded number of steps and with nothing changing
      on the way; and then the panel shows the selection's session as it is, or says that the last
      call failed. */
  lemma {:induction false} AlwaysCanSettle(w: World, sessions: nat, actions: seq<Action>) returns (moves: seq<Action>)
    ensures AllOnward(moves) && |moves| <= Work(Run(w, Initial(sessions), actions))
    ensures var x := Run(w, Initial(sessions), actions); var y := Run(w, x, moves);
            && Settled(y) && y.panel.target == x.panel.target && SameVersions(x.sessions, y.sessions)
            && (y.panel.target.Some? && w.session(y.panel.target.value) < |y.sessions| ==>
                  y.panel.error || y.panel.shown == Health(y.panel.target.value, x.sessions[w.session(y.panel.target.value)].version))
  {
    InvAlways(w, sessions, actions);
    var x := Run(w, Initial(sessions), actions);
    moves := Settles(w, x);
    StaysInv(w, x, moves);
  }

  lemma {:induction false} StaysInv(w: World, x: State, moves: seq<Action>)
    requires Inv(w, x)
    ensures Inv(w, Run(w, x, moves))
  {
    if moves != [] {
      StaysInv(w, x, moves[..|moves| - 1]);
      InvKept(w, Run(w, x, moves[..|moves| - 1]), moves[|moves| - 1]);
    }
  }

  // ---------------------------------------------------------------- no more than there was to say

  /** How often a session changed, and how often that was published. */
  function Changes(actions: seq<Action>, s: nat): nat {
    if actions == [] then 0 else Changes(actions[..|actions| - 1], s) + if actions[|actions| - 1] == Change(s) then 1 else 0
  }

  function Publications(w: World, sessions: nat, actions: seq<Action>, s: nat): nat {
    if actions == [] then 0 else
    var front, a := actions[..|actions| - 1], actions[|actions| - 1];
    var x := Run(w, Initial(sessions), front);
    Publications(w, sessions, front, s) +
    if a == Publish(s) && s < |x.sessions| && x.sessions[s].announcer.Publishing? then 1 else 0
  }

  /** What is on its way to be published. */
  function ToPublish(y: Session): nat {
    y.owed + (if y.dirty then 1 else 0) + (if y.announcer.Publishing? then 1 else 0)
  }

  lemma StepPublishes(y: Session, a: Action, s: nat)
    requires a.Change? || a.Notify? || a.TakeDirty? || a.Publish? || a.Rest? || a.Deliver?
    ensures var z := SessionNext(y, a);
            && z.version == y.version + (if a.Change? then 1 else 0)
            && ToPublish(z) + (if a.Publish? && y.announcer.Publishing? then 1 else 0) <= ToPublish(y) + (if a.Change? then 1 else 0)
            && z.events + (if a.Deliver? && y.events > 0 then 1 else 0) == y.events + if a.Publish? && y.announcer.Publishing? then 1 else 0
  {
  }

  lemma SessionStep(w: World, x: State, a: Action, s: nat)
    requires s < |x.sessions|
    ensures |Next(w, x, a).sessions| == |x.sessions|
    ensures Next(w, x, a).sessions[s] ==
            if (a.Change? || a.Notify? || a.TakeDirty? || a.Publish? || a.Rest? || (a.Deliver? && x.sessions[s].events > 0)) && a.s == s
            then SessionNext(x.sessions[s], a) else x.sessions[s]
  {
  }

  /** A session announces a change at most once: what has been published and what is on its way to be
      come to no more than its changes, which its version counts. */
  lemma {:induction false} AnnouncesOnceAChange(w: World, sessions: nat, actions: seq<Action>, s: nat)
    requires s < sessions
    ensures var x := Run(w, Initial(sessions), actions);
            && |x.sessions| == sessions && x.sessions[s].version == Changes(actions, s)
            && Publications(w, sessions, actions, s) + ToPublish(x.sessions[s]) <= Changes(actions, s)
            && x.sessions[s].events <= Publications(w, sessions, actions, s)
  {
    if actions == [] {
      FreshIsQuiet(sessions, s);
    } else {
      var front, a := actions[..|actions| - 1], actions[|actions| - 1];
      AnnouncesOnceAChange(w, sessions, front, s);
      var x := Run(w, Initial(sessions), front);
      SessionStep(w, x, a, s);
      if a.Change? || a.Notify? || a.TakeDirty? || a.Publish? || a.Rest? || a.Deliver? { StepPublishes(x.sessions[s], a, s); }
    }
  }

  lemma {:induction false} FreshIsQuiet(n: nat, s: nat)
    requires s < n
    ensures Fresh(n)[s] == Session(0, 0, false, Listening, 0)
  {
    if s < n - 1 { FreshIsQuiet(n - 1, s); }
  }

  /** The panel reads on an event exactly when something is selected and the event is of a session of
      the selection's own checkout. */
  lemma EventsOfOtherCheckoutsPass(w: World, x: State, s: nat)
    requires s < |x.sessions| && x.sessions[s].events > 0
    ensures var mine := x.panel.target.Some? && w.root(w.session(x.panel.target.value)) == w.root(s);
            Next(w, x, Deliver(s)).panel == if mine then Read(x.panel) else x.panel
  {
  }

  // ---------------------------------------------------------------- from nothing selected to shown

  /** Selecting asks, and an answer for what is still selected is what is shown. */
  lemma SelectionIsShown(w: World, x: State, t: Target)
    requires Inv(w, x) && !x.panel.inFlight && w.session(t) < |x.sessions|
    ensures var y := Next(w, x, Select(Some(t)));
            && y.panel.reader == Asked(t) && y.panel.shown == Nothing && !y.panel.error
            && Next(w, Next(w, y, Sample(true)), Return).panel ==
               Panel(Some(t), false, false, Idle, Health(t, x.sessions[w.session(t)].version), false)
            && Next(w, Next(w, y, Sample(false)), Return).panel == Panel(Some(t), false, false, Idle, Nothing, true)
  {
  }

  /** Selecting nothing empties the panel and asks nothing, not even behind a read in flight. */
  lemma NothingSelectedAsksNothing(w: World, x: State)
    ensures Next(w, x, Select(None)).panel == x.panel.(target := None, shown := Nothing, error := false)
  {
  }

  /** Asking for a refresh asks about what is selected, at once or behind the read in flight. */
  lemma RefreshAsks(w: World, x: State)
    ensures x.panel.inFlight ==> Next(w, x, Refresh).panel == x.panel.(stale := true)
    ensures !x.panel.inFlight && x.panel.target.Some? ==>
              Next(w, x, Refresh).panel == x.panel.(inFlight := true, stale := false, reader := Asked(x.panel.target.value))
    ensures !x.panel.inFlight && x.panel.target.None? ==> Next(w, x, Refresh).panel == x.panel.(stale := false, reader := Idle)
  {
  }

  /** An answer for what is no longer selected is dropped, and the read queued behind it is made for what is. */
  lemma LateAnswerIsDropped(w: World, x: State)
    requires x.panel.reader.Answered? && x.panel.target != Some(x.panel.reader.target)
    ensures var y := Next(w, x, Return).panel;
            && y.shown == x.panel.shown && y.error == x.panel.error && y.target == x.panel.target
            && y.reader == (if x.panel.stale && x.panel.target.Some? then Asked(x.panel.target.value) else Idle)
            && y.inFlight == y.reader.Asked? && (x.panel.stale ==> !y.stale)
  {
  }

  /** A change is one more visible change, and one more call to announce it. */
  lemma ChangesAreOwed(w: World, x: State, s: nat)
    requires s < |x.sessions|
    ensures var y := Next(w, x, Change(s)).sessions[s]; y.version == x.sessions[s].version + 1 && y.owed == x.sessions[s].owed + 1
  {
  }
}
