/** From a change in a watch session to the health on screen: the one-slot `dirty` channel and
    its announcer (`internal/kubewatch/session.go`), the event it publishes, and the read loop
    of the panel (`frontend/src/lib/useHealth.ts`), which coalesces a second time. */
module HealthPipeline {
  import opened Sequences

  /** A session's visible state, reduced to how often it has changed, and its announcer. */
  datatype Announcer = Listening | Publishing | Resting

  datatype Session = Session(
    version: nat,          // visible changes so far: what a snapshot taken now would show
    owed: nat,             // writers between their change and their call to `changed`
    dirty: bool,           // the one-slot channel
    announcer: Announcer,
    events: nat)           // published and not yet delivered

  /** What the panel is about: a project and a file. */
  datatype Target = Target(project: string, rel: string)

  /** The read in flight, if any: asked and not yet sampled by the backend, or on its way back. */
  datatype Reader =
    | Idle
    | Asked(target: Target)
    | Answered(target: Target, version: Option<nat>)   // None: the call itself failed

  datatype Shown = Nothing | Health(target: Target, version: nat)

  datatype Panel = Panel(
    target: Option<Target>, inFlight: bool, stale: bool, reader: Reader, shown: Shown, error: bool)

  /** Which session answers for each target, and the checkout each session belongs to. */
  datatype World = World(session: Target -> nat, root: nat -> nat)

  datatype State = State(sessions: seq<Session>, panel: Panel)

  datatype Action =
    | Change(s: nat) | Notify(s: nat) | TakeDirty(s: nat) | Publish(s: nat) | Rest(s: nat)
    | Deliver(s: nat)
    | Select(target: Option<Target>) | Refresh
    | Sample(ok: bool) | Return

  function Initial(sessions: nat): State {
    State(Fresh(sessions), Panel(None, false, false, Idle, Nothing, false))
  }

  function Fresh(n: nat): (sessions: seq<Session>)
    ensures |sessions| == n
  {
    if n == 0 then [] else Fresh(n - 1) + [Session(0, 0, false, Listening, 0)]
  }

  // ---------------------------------------------------------------- the backend's half

  function SessionNext(x: Session, a: Action): Session {
    match a
    case Change(_) => x.(version := x.version + 1, owed := x.owed + 1)
    case Notify(_) => if x.owed > 0 then x.(owed := x.owed - 1, dirty := true) else x
    case TakeDirty(_) =>
      if x.announcer.Listening? && x.dirty then x.(dirty := false, announcer := Publishing) else x
    case Publish(_) =>
      if x.announcer.Publishing? then x.(announcer := Resting, events := x.events + 1) else x
    case Rest(_) => if x.announcer.Resting? then x.(announcer := Listening) else x
    case Deliver(_) => if x.events > 0 then x.(events := x.events - 1) else x
    case _ => x
  }

  // ---------------------------------------------------------------- the panel's half

  /** The top of the read loop's body, up to its call. */
  function Begin(p: Panel): Panel {
    if p.target.Some? then p.(inFlight := true, stale := false, reader := Asked(p.target.value))
    else p.(inFlight := false, stale := false, reader := Idle)
  }

  /** `read`: one in flight and at most one queued behind it. */
  function Read(p: Panel): Panel {
    if p.inFlight then p.(stale := true) else Begin(p)
  }

  /** The selection effect. */
  function SelectNext(p: Panel, target: Option<Target>): Panel {
    var q := p.(target := target, shown := Nothing, error := false);
    if target.Some? then Read(q) else q
  }

  /** The end of `ask` and the loop condition behind it. */
  function ReturnNext(p: Panel): Panel {
    if !p.reader.Answered? then p else
    var q := if p.target != Some(p.reader.target) then p
             else if p.reader.version.Some? then
               p.(shown := Health(p.reader.target, p.reader.version.value), error := false)
             else p.(error := true);
    if q.stale then Begin(q) else q.(inFlight := false, reader := Idle)
  }

  /** An event reaches the panel if it names the checkout the panel is about. */
  predicate Concerns(w: World, p: Panel, s: nat) {
    p.target.Some? && w.root(w.session(p.target.value)) == w.root(s)
  }

  function Next(w: World, x: State, a: Action): State {
    match a
    case Select(target) => x.(panel := SelectNext(x.panel, target))
    case Refresh => x.(panel := Read(x.panel))
    case Sample(ok) =>
      if !x.panel.reader.Asked? then x else
      var k := w.session(x.panel.reader.target);
      var version := if ok && k < |x.sessions| then Some(x.sessions[k].version) else None;
      x.(panel := x.panel.(reader := Answered(x.panel.reader.target, version)))
    case Return => x.(panel := ReturnNext(x.panel))
    case Deliver(s) =>
      if s >= |x.sessions| || x.sessions[s].events == 0 then x
      else State(x.sessions[s := SessionNext(x.sessions[s], a)],
                 if Concerns(w, x.panel, s) then Read(x.panel) else x.panel)
    case _ =>
      if a.s >= |x.sessions| then x else x.(sessions := x.sessions[a.s := SessionNext(x.sessions[a.s], a)])
  }

  function Run(w: World, x: State, actions: seq<Action>): State {
    if actions == [] then x
    else Next(w, Run(w, x, actions[..|actions| - 1]), actions[|actions| - 1])
  }

  // ---------------------------------------------------------------- invariants

  /** The panel's two flags say what its read loop is doing. */
  predicate LoopInStep(p: Panel) {
    && (p.inFlight <==> !p.reader.Idle?)
    && (p.stale ==> p.inFlight)
    && (p.inFlight && !p.stale && p.target.Some? ==> p.target == Some(p.reader.target))
  }

  /** What is shown, and what is about to be, answers the target it names. */
  predicate AnswersOwnTarget(w: World, x: State) {
    && (x.panel.shown.Health? ==>
          && x.panel.target == Some(x.panel.shown.target)
          && w.session(x.panel.shown.target) < |x.sessions|
          && x.panel.shown.version <= x.sessions[w.session(x.panel.shown.target)].version)
    && (x.panel.reader.Answered? && x.panel.reader.version.Some? ==>
          && w.session(x.panel.reader.target) < |x.sessions|
          && x.panel.reader.version.value <= x.sessions[w.session(x.panel.reader.target)].version)
  }

  /** A change of this session is still on its way out of the backend. */
  predicate OnItsWay(y: Session) {
    y.owed > 0 || y.dirty || y.announcer.Publishing? || y.events > 0
  }

  /** The read loop will call the backend again, or carries an answer as new as the session. */
  predicate ReadComing(p: Panel, t: Target, version: nat) {
    && (p.stale || p.reader == Asked(t)
        || p.reader == Answered(t, Some(version)) || p.reader == Answered(t, None))
  }

  /** What the panel shows is current, or something is under way that will make it so. */
  predicate UpToDateOrComing(w: World, x: State) {
    x.panel.target.Some? ==>
      var t := x.panel.target.value;
      var k := w.session(t);
      k < |x.sessions| ==>
        || OnItsWay(x.sessions[k])
        || (if x.panel.inFlight then ReadComing(x.panel, t, x.sessions[k].version)
            else x.panel.error || x.panel.shown == Health(t, x.sessions[k].version))
  }

  predicate Inv(w: World, x: State) {
    LoopInStep(x.panel) && AnswersOwnTarget(w, x) && UpToDateOrComing(w, x)
  }

  lemma ReadKeeps(w: World, x: State)
    requires LoopInStep(x.panel) && AnswersOwnTarget(w, x)
    ensures var y := x.(panel := Read(x.panel)); Inv(w, y)
  {
  }

  lemma SelectKeeps(w: World, x: State, target: Option<Target>)
    requires LoopInStep(x.panel) && AnswersOwnTarget(w, x)
    ensures Inv(w, x.(panel := SelectNext(x.panel, target)))
  {
  }

  lemma ReturnKeeps(w: World, x: State)
    requires Inv(w, x)
    ensures Inv(w, x.(panel := ReturnNext(x.panel)))
  {
  }

  lemma SampleKeeps(w: World, x: State, ok: bool)
    requires Inv(w, x)
    ensures Inv(w, Next(w, x, Sample(ok)))
  {
  }

  lemma SessionKeeps(w: World, x: State, a: Action)
    requires Inv(w, x) && (a.Change? || a.Notify? || a.TakeDirty? || a.Publish? || a.Rest?)
    ensures Inv(w, Next(w, x, a))
  {
  }

  lemma DeliverKeeps(w: World, x: State, s: nat)
    requires Inv(w, x)
    ensures Inv(w, Next(w, x, Deliver(s)))
  {
    if s < |x.sessions| && x.sessions[s].events > 0 {
      var y := x.(sessions := x.sessions[s := SessionNext(x.sessions[s], Deliver(s))]);
      if Concerns(w, x.panel, s) { ReadKeeps(w, y); }
    }
  }

  lemma InvKept(w: World, x: State, a: Action)
    requires Inv(w, x)
    ensures Inv(w, Next(w, x, a))
  {
    match a
    case Select(target) => SelectKeeps(w, x, target);
    case Refresh => ReadKeeps(w, x);
    case Sample(ok) => SampleKeeps(w, x, ok);
    case Return => ReturnKeeps(w, x);
    case Deliver(s) => DeliverKeeps(w, x, s);
    case _ => SessionKeeps(w, x, a);
  }

  lemma {:induction false} InvAlways(w: World, sessions: nat, actions: seq<Action>)
    ensures Inv(w, Run(w, Initial(sessions), actions))
  {
    if actions != [] {
      InvAlways(w, sessions, actions[..|actions| - 1]);
      InvKept(w, Run(w, Initial(sessions), actions[..|actions| - 1]), actions[|actions| - 1]);
    }
  }

  // ---------------------------------------------------------------- what the user can rely on

  /** In every state the panel shows nothing, or health that was read for the selection it is
      about: never one cluster's verdicts under another's name. */
  lemma {:induction false} NeverAnotherTargetsHealth(w: World, sessions: nat, actions: seq<Action>)
    ensures var p := Run(w, Initial(sessions), actions).panel;
            p.shown == Nothing || p.target == Some(p.shown.target)
  {
    InvAlways(w, sessions, actions);
  }

  /** The last answer that came back for what is selected, since it was selected, was a failure. */
  function LastCallFailed(w: World, sessions: nat, actions: seq<Action>): bool {
    if actions == [] then false else
    var front, a := actions[..|actions| - 1], actions[|actions| - 1];
    var p := Run(w, Initial(sessions), front).panel;
    if a.Select? then false
    else if a.Return? && p.reader.Answered? && p.target == Some(p.reader.target) then p.reader.version.None?
    else LastCallFailed(w, sessions, front)
  }

  /** The panel reports an error exactly when that is so: an answer clears it, a stale one does not set it. */
  lemma {:induction false} ErrorIsTheLastCalls(w: World, sessions: nat, actions: seq<Action>)
    ensures Run(w, Initial(sessions), actions).panel.error == LastCallFailed(w, sessions, actions)
  {
    if actions != [] { ErrorIsTheLastCalls(w, sessions, actions[..|actions| - 1]); }
  }

  /** Nothing of this target's session is under way any more, and no read is. */
  predicate Quiet(w: World, x: State) {
    && x.panel.reader.Idle?
    && (x.panel.target.Some? && w.session(x.panel.target.value) < |x.sessions| ==>
          !OnItsWay(x.sessions[w.session(x.panel.target.value)]))
  }

  /** No wakeup is lost: once everything in flight has settled, the panel shows the session as
      it is, or says that the last call failed. */
  lemma SettlesCurrent(w: World, sessions: nat, actions: seq<Action>)
    ensures var x := Run(w, Initial(sessions), actions);
            Quiet(w, x) && x.panel.target.Some? && w.session(x.panel.target.value) < |x.sessions| ==>
              || (x.panel.error && LastCallFailed(w, sessions, actions))
              || x.panel.shown == Health(x.panel.target.value, x.sessions[w.session(x.panel.target.value)].version)
  {
    InvAlways(w, sessions, actions);
    ErrorIsTheLastCalls(w, sessions, actions);
  }

  /** Every event that concerns the panel is followed by a call begun after it: one starts at
      once, or the one in flight will be followed by another. */
  lemma EventsStartReads(w: World, sessions: nat, actions: seq<Action>, s: nat)
    requires var x := Run(w, Initial(sessions), actions);
             s < |x.sessions| && x.sessions[s].events > 0 && Concerns(w, x.panel, s)
    ensures var x := Run(w, Initial(sessions), actions);
            var p := Next(w, x, Deliver(s)).panel;
            p.inFlight && (p.stale || (x.panel.reader.Idle? && p.reader == Asked(p.target.value)))
  {
    InvAlways(w, sessions, actions);
  }

  /** A queued read is not forgotten: the answer in flight is followed by a fresh call
      for whatever is selected by then. */
  lemma StaleReadsAgain(w: World, sessions: nat, actions: seq<Action>)
    requires var p := Run(w, Initial(sessions), actions).panel; p.reader.Answered? && p.stale && p.target.Some?
    ensures var p := Next(w, Run(w, Initial(sessions), actions), Return).panel;
            p.inFlight && !p.stale && p.reader == Asked(p.target.value)
  {
    InvAlways(w, sessions, actions);
  }
}
