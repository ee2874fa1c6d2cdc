/** An editor tab and the file under it: the asynchronous reads and writes of
    `frontend/src/lib/useEditorTabs.ts` against a disk that others write too. When a clean tab shows
    what is on disk, and two ways in which it does not. */
module EditorDisk {
  import opened Sequences
  import opened EditorTabs

  /** The file's texts in the order they were written, and what is on its way. */
  datatype World = World(
    state: State,
    texts: seq<string>,        // every text the file has held; the last is on disk now
    pending: seq<nat>,           // the re-reads in flight: which text each has sampled
    landed: Option<nat>,       // the text a save in flight has put on disk, if it has
    base: nat,                 // which text the baseline is
    clash: nat)                // which text the last conflict was

  datatype Step =
    | Outsider(text: string)   // somebody else writes the file
    | BeginRead                // a change event has a re-read sample the file
    | ReadReturns(i: nat)      // in any order
    | Type(text: string)
    | StartSave
    | WriteLands
    | SaveReturns(ok: bool)
    | KeepsMine
    | TakesDisk

  function FileOf(text: string): File {
    File(text, false, false, false, |text|)
  }

  /** A tab that has just been loaded. */
  function Opened(text: string): World {
    World(Next(Initial(), Loaded(Ok(FileOf(text)))), [text], [], None, 0, 0)
  }

  function Disk(w: World): string {
    if w.texts == [] then "" else w.texts[|w.texts| - 1]
  }

  /** A re-read comes back: adopted by a clean tab, held against a dirty one, ignored during a save. */
  function Returned(w: World, i: nat): World
    requires i < |w.pending| && w.pending[i] < |w.texts|
  {
    var v, t := w.pending[i], w.state.tab;
    var next := w.(state := Next(w.state, Reread(Ok(FileOf(w.texts[v])))), pending := w.pending[..i] + w.pending[i + 1..]);
    if t.status != Ready || t.saving then next
    else if !IsDirty(t) then next.(base := v)
    else if w.texts[v] != t.baseline then next.(clash := v)
    else next
  }

  function StepTo(w: World, a: Step): World {
    match a
    case Outsider(text) => w.(texts := w.texts + [text])
    case BeginRead => if w.texts == [] then w else w.(pending := w.pending + [|w.texts| - 1])
    case ReadReturns(i) => if i < |w.pending| && w.pending[i] < |w.texts| then Returned(w, i) else w
    case Type(text) => w.(state := Next(w.state, Edit(text)))
    case StartSave => if CanSave(w.state.tab) then w.(state := Next(w.state, Save), landed := None) else w
    case WriteLands =>
      if w.state.writing.Some? && w.landed.None? then
        w.(texts := w.texts + [w.state.writing.value], landed := Some(|w.texts|))
      else w
    case SaveReturns(ok) =>
      if w.state.writing.None? then w
      else if !ok then w.(state := Next(w.state, Saved(Failed(""))), landed := None)
      else if w.landed.None? then w
      else w.(state := Next(w.state, Saved(Ok(()))), base := w.landed.value, landed := None)
    case KeepsMine =>
      w.(state := Next(w.state, Keep), base := if w.state.tab.conflict.Some? then w.clash else w.base)
    case TakesDisk =>
      w.(state := Next(w.state, Take), base := if w.state.tab.conflict.Some? then w.clash else w.base)
  }

  function Steps(w: World, steps: seq<Step>): World {
    if steps == [] then w else StepTo(Steps(w, steps[..|steps| - 1]), steps[|steps| - 1])
  }

  lemma StepsSnoc(w: World, steps: seq<Step>, a: Step)
    ensures Steps(w, steps + [a]) == StepTo(Steps(w, steps), a)
  {
    assert (steps + [a])[..|steps|] == steps;
  }

  // ---------------------------------------------------------------- what holds in every run

  predicate Sound(w: World) {
    && Inv(w.state) && w.state.tab.status == Ready && !w.state.tab.readOnly
    && w.base < |w.texts| && w.texts[w.base] == w.state.tab.baseline
    && (w.state.tab.conflict.Some? ==> w.clash < |w.texts| && w.texts[w.clash] == w.state.tab.conflict.value)
    && (forall i | 0 <= i < |w.pending| :: w.pending[i] < |w.texts|)
    && (w.landed.Some? ==> w.state.writing.Some? && w.landed.value < |w.texts| && w.texts[w.landed.value] == w.state.writing.value)
  }

  lemma ReturnKeepsSound(w: World, i: nat)
    requires Sound(w) && i < |w.pending|
    ensures Sound(Returned(w, i))
  {
    InvKept(w.state, Reread(Ok(FileOf(w.texts[w.pending[i]]))));
    var left := w.pending[..i] + w.pending[i + 1..];
    forall k | 0 <= k < |left| ensures left[k] < |w.texts| {
      assert left[k] == w.pending[if k < i then k else k + 1];
    }
  }

  lemma StepKeepsSound(w: World, a: Step)
    requires Sound(w)
    ensures Sound(StepTo(w, a))
  {
    match a
    case ReadReturns(i) => if i < |w.pending| { ReturnKeepsSound(w, i); }
    case _ =>
  }

  lemma {:induction false} AlwaysSound(text: string, steps: seq<Step>)
    ensures Sound(Steps(Opened(text), steps))
  {
    if steps != [] {
      AlwaysSound(text, steps[..|steps| - 1]);
      StepKeepsSound(Steps(Opened(text), steps[..|steps| - 1]), steps[|steps| - 1]);
    }
  }

  /** A clean tab shows a text the file has held. */
  lemma {:induction false} CleanTabShows(text: string, steps: seq<Step>)
    requires !IsDirty(Steps(Opened(text), steps).state.tab)
    ensures var w := Steps(Opened(text), steps); w.base < |w.texts| && w.state.tab.content == w.texts[w.base]
  {
    AlwaysSound(text, steps);
  }

  // ---------------------------------------------------------------- when it does

  /** The text now on disk is what every re-read in flight has sampled. */
  predicate ReadsAreCurrent(w: World) {
    forall i | 0 <= i < |w.pending| :: w.pending[i] < |w.texts| && w.texts[w.pending[i]] == Disk(w)
  }

  /** The baseline, and whatever is on its way into it, is the text now on disk: what the re-reads in
      flight have sampled, what a save in flight has written, what an unresolved conflict holds. */
  predicate Settled(w: World) {
    && w.state.tab.baseline == Disk(w) && ReadsAreCurrent(w)
    && (w.landed.Some? ==> w.state.writing == Some(Disk(w)))
    && (w.state.tab.conflict.Some? ==> w.state.tab.conflict.value == Disk(w))
  }

  predicate Writes(w: World, a: Step) {
    a.Outsider? || (a.WriteLands? && w.state.writing.Some? && w.landed.None?)
  }

  lemma SettledStep(w: World, a: Step)
    requires Sound(w) && Settled(w) && !Writes(w, a)
    ensures Settled(StepTo(w, a))
  {
    if a.ReadReturns? { SettledRead(w, a.i); }
  }

  lemma SettledRead(w: World, i: nat)
    requires Sound(w) && Settled(w)
    ensures Settled(StepTo(w, ReadReturns(i)))
  {
    if i < |w.pending| {
      var left := w.pending[..i] + w.pending[i + 1..];
      forall k | 0 <= k < |left| ensures left[k] < |w.texts| && w.texts[left[k]] == Disk(w) {
        assert left[k] == w.pending[if k < i then k else k + 1];
      }
    }
  }

  predicate NothingWritten(w: World, steps: seq<Step>) {
    steps != [] ==>
      NothingWritten(w, steps[..|steps| - 1]) && !Writes(Steps(w, steps[..|steps| - 1]), steps[|steps| - 1])
  }

  /** A clean tab shows what is on disk. */
  predicate ShowsDisk(w: World) {
    !IsDirty(w.state.tab) ==> w.state.tab.content == Disk(w)
  }

  lemma {:induction false} StaysSettled(w: World, steps: seq<Step>)
    requires Sound(w) && Settled(w) && NothingWritten(w, steps)
    ensures Sound(Steps(w, steps)) && Settled(Steps(w, steps)) && ShowsDisk(Steps(w, steps))
  {
    if steps != [] {
      StaysSettled(w, steps[..|steps| - 1]);
      StepKeepsSound(Steps(w, steps[..|steps| - 1]), steps[|steps| - 1]);
      SettledStep(Steps(w, steps[..|steps| - 1]), steps[|steps| - 1]);
    }
  }

  /** However long it goes on, if nobody writes the file a clean tab shows what is on disk. */
  ghost predicate GoesOnShowing(w: World) {
    forall steps | NothingWritten(w, steps) :: ShowsDisk(Steps(w, steps))
  }

  /** Up to three steps of it. */
  lemma Shown(w: World, a: Step, b: Step, c: Step)
    requires GoesOnShowing(w)
    ensures !Writes(w, a) ==> ShowsDisk(StepTo(w, a))
    ensures !Writes(w, a) && !Writes(StepTo(w, a), b) ==> ShowsDisk(StepTo(StepTo(w, a), b))
    ensures !Writes(w, a) && !Writes(StepTo(w, a), b) && !Writes(StepTo(StepTo(w, a), b), c) ==>
              ShowsDisk(StepTo(StepTo(StepTo(w, a), b), c))
  {
    StepsSnoc(w, [], a);
    StepsSnoc(w, [] + [a], b);
    StepsSnoc(w, [] + [a] + [b], c);
    WrittenSnoc(w, [], a);
    WrittenSnoc(w, [] + [a], b);
    WrittenSnoc(w, [] + [a] + [b], c);
  }

  lemma WrittenSnoc(w: World, steps: seq<Step>, a: Step)
    ensures NothingWritten(w, steps + [a]) <==> NothingWritten(w, steps) && !Writes(Steps(w, steps), a)
  {
    assert (steps + [a])[..|steps|] == steps;
  }

  /** A baseline that is not on disk shows once it is typed. */
  lemma StaleBaselineShows(w: World)
    requires Sound(w) && GoesOnShowing(w)
    ensures w.state.tab.baseline == Disk(w)
  {
    Shown(w, Type(w.state.tab.baseline), TakesDisk, TakesDisk);
  }

  /** A save that wrote another text shows it once it has returned and that text is typed. */
  lemma StaleSaveShows(w: World)
    requires Sound(w) && GoesOnShowing(w) && w.landed.Some?
    ensures w.state.writing == Some(Disk(w))
  {
    Shown(w, SaveReturns(true), Type(w.state.writing.value), TakesDisk);
  }

  /** A conflict with another text shows it once it is taken. */
  lemma StaleConflictShows(w: World)
    requires Sound(w) && GoesOnShowing(w) && w.state.tab.conflict.Some?
    ensures w.state.tab.conflict.value == Disk(w)
  {
    Shown(w, TakesDisk, TakesDisk, TakesDisk);
  }

  /** A re-read that sampled another text shows once no save is in its way and the tab is clean. */
  lemma StaleReadShows(w: World, i: nat)
    requires Sound(w) && GoesOnShowing(w) && i < |w.pending|
    ensures w.texts[w.pending[i]] == Disk(w)
  {
    var idle := StepTo(w, SaveReturns(false));
    var clean := StepTo(idle, Type(idle.state.tab.baseline));
    Shown(w, SaveReturns(false), Type(idle.state.tab.baseline), ReadReturns(i));
    assert StepTo(clean, ReadReturns(i)) == Returned(clean, i);
  }

  /** With nobody writing the file, a clean tab goes on showing the disk, whatever the user and the
      watcher do, exactly when its baseline and everything in flight are the text on disk. */
  lemma {:induction false} SettledTabShowsTheDisk(text: string, before: seq<Step>)
    ensures GoesOnShowing(Steps(Opened(text), before)) <==> Settled(Steps(Opened(text), before))
  {
    var w := Steps(Opened(text), before);
    AlwaysSound(text, before);
    if Settled(w) {
      forall steps | NothingWritten(w, steps) ensures ShowsDisk(Steps(w, steps)) { StaysSettled(w, steps); }
    }
    if GoesOnShowing(w) {
      StaleBaselineShows(w);
      if w.landed.Some? { StaleSaveShows(w); }
      if w.state.tab.conflict.Some? { StaleConflictShows(w); }
      forall i | 0 <= i < |w.pending| ensures w.texts[w.pending[i]] == Disk(w) { StaleReadShows(w, i); }
    }
  }

  lemma FreshReturn(w: World, i: nat)
    requires Sound(w) && i < |w.pending| && w.pending[i] == |w.texts| - 1 && !IsDirty(w.state.tab) && !w.state.tab.saving
    ensures !IsDirty(Returned(w, i).state.tab) && Returned(w, i).state.tab.content == Disk(Returned(w, i))
  {
  }

  /** A re-read begun after the last write brings a clean, idle tab up to the disk. */
  lemma {:induction false} FreshReadShowsTheDisk(text: string, steps: seq<Step>, i: nat)
    requires var w := Steps(Opened(text), steps);
             i < |w.pending| && w.pending[i] == |w.texts| - 1 && !IsDirty(w.state.tab) && !w.state.tab.saving
    ensures var w := StepTo(Steps(Opened(text), steps), ReadReturns(i));
            !IsDirty(w.state.tab) && w.state.tab.content == Disk(w)
  {
    AlwaysSound(text, steps);
    FreshReturn(Steps(Opened(text), steps), i);
  }

  // ---------------------------------------------------------------- when it does not

  /** The tab while `mine` is being saved over `was`, its write on disk but not yet answered. */
  function Saving(was: string, mine: string, pending: seq<nat>): World {
    var tab := Opened(was);
    tab.(state := State(tab.state.tab.(content := mine, saving := true), Some(mine), {was}),
            texts := [was, mine], pending := pending, landed := Some(1))
  }

  lemma SaveBegins(was: string, mine: string, pending: seq<nat>)
    requires was != mine
    ensures StepTo(StepTo(StepTo(Opened(was).(pending := pending), Type(mine)), StartSave), WriteLands) == Saving(was, mine, pending)
  {
    assert Opened(was).state.seen == {was};
  }

  /** A re-read begun before a save and returning after it. */
  function LateRead(mine: string): seq<Step> {
    [BeginRead, Type(mine), StartSave] + [WriteLands, SaveReturns(true), ReadReturns(0)]
  }

  lemma LateReadRuns(was: string, mine: string)
    ensures Steps(Opened(was), LateRead(mine)) ==
            var begun := StepTo(Opened(was), BeginRead);
            StepTo(StepTo(StepTo(StepTo(StepTo(begun, Type(mine)), StartSave), WriteLands), SaveReturns(true)), ReadReturns(0))
  {
    SixSteps(Opened(was), BeginRead, Type(mine), StartSave, WriteLands, SaveReturns(true), ReadReturns(0));
  }

  lemma {:induction false} StepsConcat(w: World, a: seq<Step>, b: seq<Step>)
    ensures Steps(w, a + b) == Steps(Steps(w, a), b)
  {
    if b == [] {
      assert a + b == a;
    } else {
      assert (a + b)[..|a + b| - 1] == a + b[..|b| - 1];
      StepsConcat(w, a, b[..|b| - 1]);
    }
  }

  lemma ThreeSteps(w: World, a: Step, b: Step, c: Step)
    ensures Steps(w, [a, b, c]) == StepTo(StepTo(StepTo(w, a), b), c)
  {
    TwoSteps(w, a, b);
    StepsSnoc(w, [a, b], c);
    assert [a, b] + [c] == [a, b, c];
  }

  lemma TwoSteps(w: World, a: Step, b: Step)
    ensures Steps(w, [a, b]) == StepTo(StepTo(w, a), b)
  {
    StepsSnoc(w, [], a);
    StepsSnoc(w, [a], b);
    assert [] + [a] == [a] && [a] + [b] == [a, b];
  }

  lemma SixSteps(w: World, a: Step, b: Step, c: Step, d: Step, e: Step, f: Step)
    ensures Steps(w, [a, b, c] + [d, e, f]) == StepTo(StepTo(StepTo(StepTo(StepTo(StepTo(w, a), b), c), d), e), f)
  {
    ThreeSteps(w, a, b, c);
    ThreeSteps(Steps(w, [a, b, c]), d, e, f);
    StepsConcat(w, [a, b, c], [d, e, f]);
  }

  lemma LateReadLands(was: string, mine: string)
    requires was != mine
    ensures var w := StepTo(StepTo(Saving(was, mine, [0]), SaveReturns(true)), ReadReturns(0));
            !IsDirty(w.state.tab) && w.state.tab.content == was && Disk(w) == mine && w.pending == []
  {
    var saved := StepTo(Saving(was, mine, [0]), SaveReturns(true));
    assert saved.pending == [0] && saved.texts == [was, mine] && !IsDirty(saved.state.tab);
    assert StepTo(saved, ReadReturns(0)) == Returned(saved, 0);
  }

  /** It puts the old text back into the buffer: the tab is clean, and does not show what was just saved. */
  lemma LateReadUndoesTheSave(was: string, mine: string)
    requires was != mine
    ensures var w := Steps(Opened(was), LateRead(mine));
            !IsDirty(w.state.tab) && w.state.tab.content == was && Disk(w) == mine && w.pending == []
  {
    LateReadRuns(was, mine);
    assert StepTo(Opened(was), BeginRead) == Opened(was).(pending := [0]);
    SaveBegins(was, mine, [0]);
    LateReadLands(was, mine);
  }

  /** Another's write between ours and its answer, re-read while the tab is still saving. */
  function MissedRead(mine: string, theirs: string): seq<Step> {
    [Type(mine), StartSave, WriteLands] + [Outsider(theirs), BeginRead, ReadReturns(0)] + [SaveReturns(true)]
  }

  lemma MissedReadRuns(was: string, mine: string, theirs: string)
    ensures Steps(Opened(was), MissedRead(mine, theirs)) ==
            var landed := StepTo(StepTo(StepTo(Opened(was), Type(mine)), StartSave), WriteLands);
            StepTo(StepTo(StepTo(StepTo(landed, Outsider(theirs)), BeginRead), ReadReturns(0)), SaveReturns(true))
  {
    var six := [Type(mine), StartSave, WriteLands] + [Outsider(theirs), BeginRead, ReadReturns(0)];
    SixSteps(Opened(was), Type(mine), StartSave, WriteLands, Outsider(theirs), BeginRead, ReadReturns(0));
    StepsSnoc(Opened(was), six, SaveReturns(true));
  }

  lemma MissedReadLands(was: string, mine: string, theirs: string)
    requires was != mine
    ensures var after := StepTo(StepTo(StepTo(Saving(was, mine, []), Outsider(theirs)), BeginRead), ReadReturns(0));
            var w := StepTo(after, SaveReturns(true));
            !IsDirty(w.state.tab) && w.state.tab.content == mine && Disk(w) == theirs && w.pending == []
  {
    var begun := StepTo(StepTo(Saving(was, mine, []), Outsider(theirs)), BeginRead);
    assert begun.texts == [was, mine, theirs] && begun.pending == [2];
    var after := StepTo(begun, ReadReturns(0));
    assert after == Returned(begun, 0) && after.state.tab == begun.state.tab && after.pending == [];
  }

  /** The re-read is ignored: the tab is clean, nothing is in flight, and it does not show the disk. */
  lemma WriteDuringSaveIsMissed(was: string, mine: string, theirs: string)
    requires was != mine && theirs != mine
    ensures var w := Steps(Opened(was), MissedRead(mine, theirs));
            !IsDirty(w.state.tab) && w.state.tab.content == mine && Disk(w) == theirs && w.pending == []
  {
    MissedReadRuns(was, mine, theirs);
    assert Opened(was).(pending := []) == Opened(was);
    SaveBegins(was, mine, []);
    MissedReadLands(was, mine, theirs);
  }
}
