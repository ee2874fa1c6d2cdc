/** An editor tab between the user, the disk and the watcher: the transitions of
    `frontend/src/lib/editorTabs.ts`, in every order the asynchronous steps of
    `frontend/src/lib/useEditorTabs.ts` can bring them. */
module EditorTabs {
  import opened Sequences

  datatype Status = Loading | Ready | Error

  /** What a read of the file returns. */
  datatype File = File(content: string, crlf: bool, readOnly: bool, mixedEol: bool, size: nat)

  datatype Tab = Tab(
    status: Status, content: string, baseline: string, crlf: bool, readOnly: bool, mixedEol: bool, size: nat,
    conflict: Option<string>, saving: bool, error: Option<string>)

  const NEW := Tab(Loading, "", "", false, false, false, 0, None, false, None)

  // ---------------------------------------------------------------- transitions

  predicate IsDirty(t: Tab) {
    t.status == Ready && t.content != t.baseline
  }

  predicate CanSave(t: Tab) {
    IsDirty(t) && !t.readOnly && !t.saving && t.conflict.None?
  }

  function WithLoaded(t: Tab, f: File): Tab {
    t.(status := Ready, content := f.content, baseline := f.content, crlf := f.crlf, readOnly := f.readOnly,
       mixedEol := f.mixedEol, size := f.size, conflict := None, error := None)
  }

  function WithError(t: Tab, message: string): Tab {
    t.(status := Error, error := Some(message))
  }

  function WithEdit(t: Tab, content: string): Tab {
    if t.readOnly then t else t.(content := content, error := None)
  }

  function WithSaving(t: Tab): Tab {
    t.(saving := true, error := None)
  }

  function WithSaved(t: Tab, saved: string): Tab {
    t.(baseline := saved, saving := false, conflict := None, error := None)
  }

  function WithSaveFailed(t: Tab, message: string): Tab {
    t.(saving := false, error := Some(message))
  }

  function WithReloadFailed(t: Tab, message: string): Tab {
    t.(error := Some(message))
  }

  function WithExternalChange(t: Tab, f: File): Tab {
    if t.status != Ready || t.saving then t
    else if !IsDirty(t) then WithLoaded(t, f)
    else if f.content == t.baseline then t
    else t.(conflict := Some(f.content), crlf := f.crlf)
  }

  function KeepMine(t: Tab): Tab {
    if t.conflict.None? then t else t.(baseline := t.conflict.value, conflict := None)
  }

  function TakeDisk(t: Tab): Tab {
    if t.conflict.None? then t else t.(content := t.conflict.value, baseline := t.conflict.value, conflict := None)
  }

  // ---------------------------------------------------------------- a tab over time

  /** A backend call's outcome. */
  datatype Result<T> = Ok(value: T) | Failed(message: string)

  /** A tab, the text a save in flight is writing, and every text known to have been on disk. */
  datatype State = State(tab: Tab, writing: Option<string>, seen: set<string>)

  datatype Action =
    | Loaded(file: Result<File>)        // the read that opening the tab began has returned
    | Edit(content: string)
    | Save
    | Saved(outcome: Result<()>)        // the write a save began has returned
    | Reread(file: Result<File>)        // a read begun by a change event has returned
    | Keep
    | Take

  function Initial(): State {
    State(NEW, None, {})
  }

  function Next(s: State, a: Action): State {
    match a
    case Loaded(Ok(f)) => if s.tab.status == Loading then s.(tab := WithLoaded(s.tab, f), seen := s.seen + {f.content}) else s
    case Loaded(Failed(m)) => if s.tab.status == Loading then s.(tab := WithError(s.tab, m)) else s
    case Edit(content) => s.(tab := WithEdit(s.tab, content))
    case Save => if CanSave(s.tab) then s.(tab := WithSaving(s.tab), writing := Some(s.tab.content)) else s
    case Saved(Ok(_)) =>
      if s.writing.None? then s
      else State(WithSaved(s.tab, s.writing.value), None, s.seen + {s.writing.value})
    case Saved(Failed(m)) => if s.writing.None? then s else s.(tab := WithSaveFailed(s.tab, m), writing := None)
    case Reread(Ok(f)) => s.(tab := WithExternalChange(s.tab, f), seen := s.seen + {f.content})
    case Reread(Failed(m)) => s.(tab := WithReloadFailed(s.tab, m))
    case Keep => s.(tab := KeepMine(s.tab))
    case Take => s.(tab := TakeDisk(s.tab))
  }

  function Run(s: State, actions: seq<Action>): State {
    if actions == [] then s else Next(Run(s, actions[..|actions| - 1]), actions[|actions| - 1])
  }

  // ---------------------------------------------------------------- what holds in every run

  predicate Inv(s: State) {
    && (s.tab.saving <==> s.writing.Some?)
    && (s.tab.status != Ready ==> !s.tab.saving && s.tab.conflict.None?)
    && (s.tab.saving ==> s.tab.conflict.None? && !s.tab.readOnly)
    && (s.tab.conflict.Some? ==> s.tab.conflict.value != s.tab.baseline && s.tab.conflict.value in s.seen)
    && (s.tab.status == Ready ==> s.tab.baseline in s.seen)
  }

  lemma InvKept(s: State, a: Action)
    requires Inv(s)
    ensures Inv(Next(s, a))
  {
  }

  lemma {:induction false} InvAfter(s: State, actions: seq<Action>)
    requires Inv(s)
    ensures Inv(Run(s, actions))
  {
    if actions != [] {
      InvAfter(s, actions[..|actions| - 1]);
      InvKept(Run(s, actions[..|actions| - 1]), actions[|actions| - 1]);
    }
  }

  /** In every run: a loaded tab's baseline is a text that was read from or written to disk, a save
      in flight never coexists with a conflict, and an unresolved conflict differs from the
      baseline and was read from disk. */
  lemma {:induction false} TabIsHonest(actions: seq<Action>)
    ensures var s := Run(Initial(), actions);
            && (s.tab.status == Ready ==> s.tab.baseline in s.seen)
            && !(s.tab.saving && s.tab.conflict.Some?)
            && (s.tab.conflict.Some? ==> s.tab.conflict.value != s.tab.baseline && s.tab.conflict.value in s.seen)
  {
    InvAfter(Initial(), actions);
  }

  // ---------------------------------------------------------------- the user's text

  /** The text the user typed last that no step has yet put on disk or thrown away. */
  function Unsaved(actions: seq<Action>): Option<string> {
    if actions == [] then None else
    var before, a := Run(Initial(), actions[..|actions| - 1]), actions[|actions| - 1];
    var after := Next(before, a);
    if after.tab.status != Ready || !IsDirty(after.tab) then None
    else match a
      case Edit(content) => if before.tab.readOnly then Unsaved(actions[..|actions| - 1]) else Some(content)
      case Take => if before.tab.conflict.Some? then None else Unsaved(actions[..|actions| - 1])
      case _ => Unsaved(actions[..|actions| - 1])
  }

  /** A dirty buffer changes by an edit or by taking the disk's text, and by nothing else. */
  lemma DirtyBufferChangesOnlyByChoice(actions: seq<Action>, a: Action)
    requires IsDirty(Run(Initial(), actions).tab)
    requires Next(Run(Initial(), actions), a).tab.content != Run(Initial(), actions).tab.content
    ensures a.Edit? || (a.Take? && Run(Initial(), actions).tab.conflict.Some?)
  {
  }

  /** Typed text is never lost: what the user typed last is in the buffer for as long as the tab is
      dirty, whatever is saved, re-read, failed or kept in between. */
  lemma {:induction false} TypedTextSurvives(actions: seq<Action>)
    ensures Unsaved(actions).Some? ==> Run(Initial(), actions).tab.content == Unsaved(actions).value
    ensures Unsaved(actions).Some? ==> IsDirty(Run(Initial(), actions).tab)
  {
    if actions != [] {
      var front, a := actions[..|actions| - 1], actions[|actions| - 1];
      TypedTextSurvives(front);
      InvAfter(Initial(), front);
    }
  }

  /** The step puts another text in the buffer by the user's choice: an edit, or the disk's text over a conflict. */
  predicate Chooses(before: State, a: Action) {
    (a.Edit? && !before.tab.readOnly) || (a.Take? && before.tab.conflict.Some?)
  }

  /** The edit was the last such choice of the run, and the tab has been dirty ever since. */
  predicate DirtySince(actions: seq<Action>, k: nat) {
    && k < |actions| && actions[k].Edit? && Chooses(Run(Initial(), actions[..k]), actions[k])
    && (forall j | k < j < |actions| :: !Chooses(Run(Initial(), actions[..j]), actions[j]))
    && (forall j | k < j <= |actions| :: IsDirty(Run(Initial(), actions[..j]).tab))
  }

  /** Until the tab is clean, or the user takes the disk's text, the last edit is in the buffer. */
  lemma {:induction false} LastEditIsInTheBuffer(actions: seq<Action>, k: nat)
    requires DirtySince(actions, k)
    ensures Run(Initial(), actions).tab.content == actions[k].content
  {
    LastEditIsUnsaved(actions, k);
    TypedTextSurvives(actions);
  }

  lemma {:induction false} LastEditIsUnsaved(actions: seq<Action>, k: nat)
    requires DirtySince(actions, k)
    ensures Unsaved(actions) == Some(actions[k].content)
  {
    var n := |actions| - 1;
    DirtyToTheEnd(actions, k);
    if k < n { LastEditIsUnsaved(actions[..n], k); }
  }

  lemma DirtyToTheEnd(actions: seq<Action>, k: nat)
    requires DirtySince(actions, k)
    ensures var n := |actions| - 1; var front, a := actions[..n], actions[n];
            && (k < n ==> DirtySince(front, k) && Unsaved(actions) == Unsaved(front))
            && (k == n ==> Unsaved(actions) == Some(a.content))
  {
    var n := |actions| - 1;
    assert actions[..n + 1] == actions;
    assert IsDirty(Run(Initial(), actions[..n + 1]).tab);
    if k < n { DirtyInFront(actions, k); }
  }

  lemma DirtyInFront(actions: seq<Action>, k: nat)
    requires DirtySince(actions, k) && k < |actions| - 1
    ensures DirtySince(actions[..|actions| - 1], k)
  {
    var front := actions[..|actions| - 1];
    assert forall j | 0 <= j <= |front| :: front[..j] == actions[..j];
  }

  predicate DuringSave(actions: seq<Action>) {
    forall i | 0 <= i < |actions| :: !actions[i].Saved?
  }

  /** While a save is in flight the tab stays saving the text it began with, and only typing
      moves the buffer. */
  lemma {:induction false} SaveInFlight(s: State, actions: seq<Action>)
    requires Inv(s) && CanSave(s.tab) && DuringSave(actions)
    ensures var r := Run(Next(s, Save), actions);
            && r.tab.saving && r.writing == Some(s.tab.content) && r.tab.status == Ready && !r.tab.readOnly
            && r.tab.baseline == s.tab.baseline
            && r.tab.content == LastTyped(s.tab.content, actions)
  {
    if actions != [] {
      SaveInFlight(s, actions[..|actions| - 1]);
      InvAfter(s, [Save]);
      assert [Save][..0] == [];
      InvAfter(Next(s, Save), actions[..|actions| - 1]);
    }
  }

  function LastTyped(content: string, actions: seq<Action>): string {
    if actions == [] then content
    else if actions[|actions| - 1].Edit? then actions[|actions| - 1].content
    else LastTyped(content, actions[..|actions| - 1])
  }

  /** After a save succeeds the tab is dirty exactly when the user has typed something else in the
      meantime, the newer text is still in the buffer, and the baseline is what was written. */
  lemma KeystrokesDuringSaveStayDirty(before: seq<Action>, during: seq<Action>)
    requires CanSave(Run(Initial(), before).tab) && DuringSave(during)
    ensures var s := Run(Initial(), before);
            var r := Next(Run(Next(s, Save), during), Saved(Ok(())));
            && r.tab.baseline == s.tab.content && s.tab.content in r.seen
            && r.tab.content == LastTyped(s.tab.content, during)
            && (IsDirty(r.tab) <==> LastTyped(s.tab.content, during) != s.tab.content)
  {
    var s := Run(Initial(), before);
    InvAfter(Initial(), before);
    SaveInFlight(s, during);
  }

  /** A save that fails costs nothing: buffer and baseline are as they would be without it. */
  lemma FailedSaveCostsNothing(before: seq<Action>, during: seq<Action>, message: string)
    requires CanSave(Run(Initial(), before).tab) && DuringSave(during)
    ensures var s := Run(Initial(), before);
            var r := Next(Run(Next(s, Save), during), Saved(Failed(message)));
            && r.tab.baseline == s.tab.baseline && r.tab.content == LastTyped(s.tab.content, during) && !r.tab.saving
  {
    var s := Run(Initial(), before);
    InvAfter(Initial(), before);
    SaveInFlight(s, during);
  }

  // ---------------------------------------------------------------- conflicts

  /** A re-read leaves a conflict that is not the text just read exactly when the disk went back
      to the baseline under a conflict still unresolved. */
  lemma StaleConflictExactlyOnRevert(actions: seq<Action>, f: File)
    requires var t := Run(Initial(), actions).tab; t.status == Ready && !t.saving
    ensures var t := Run(Initial(), actions).tab;
            var r := Next(Run(Initial(), actions), Reread(Ok(f))).tab;
            (r.conflict.None? || r.conflict.value == f.content) <==>
            !(t.conflict.Some? && IsDirty(t) && f.content == t.baseline)
  {
    InvAfter(Initial(), actions);
  }

  /** Such a run: a tab is edited, the file is changed by another, and then changed back. */
  function Reverted(base: File, mine: string, theirs: File): seq<Action> {
    [Loaded(Ok(base)), Edit(mine), Reread(Ok(theirs)), Reread(Ok(base))]
  }

  lemma RevertLeavesTheConflict(base: File, mine: string, theirs: File)
    requires !base.readOnly && mine != base.content && theirs.content != base.content
    ensures var t := Run(Initial(), Reverted(base, mine, theirs)).tab;
            t.conflict == Some(theirs.content) && t.baseline == base.content && !CanSave(t)
  {
    var all := Reverted(base, mine, theirs);
    assert all[..4] == all && all[..3][..2] == all[..2] && all[..2][..1] == all[..1] && all[..1][..0] == [];
    assert Run(Initial(), all[..1]) == Next(Initial(), all[0]);
    assert Run(Initial(), all[..2]) == Next(Next(Initial(), all[0]), all[1]);
    assert Run(Initial(), all[..3]) == Next(Next(Next(Initial(), all[0]), all[1]), all[2]);
  }

  /** Keeping one's own text leaves the buffer alone and, unless both texts agree, dirty: a save is
      still needed to overwrite the disk. A re-read of that same disk text then raises nothing. */
  lemma KeepMineIsRemembered(actions: seq<Action>, f: File)
    requires var t := Run(Initial(), actions).tab; t.conflict == Some(f.content) && t.content != f.content
    ensures var t := Run(Initial(), actions).tab;
            var kept := Next(Run(Initial(), actions), Keep);
            && kept.tab.content == t.content && CanSave(kept.tab) == (!t.readOnly)
            && Next(kept, Reread(Ok(f))).tab == kept.tab
  {
    InvAfter(Initial(), actions);
  }
}
