/** What an editor tab knows of its file, through whole runs of `frontend/src/lib/editorTabs.ts`: which
    read its flags are from, which its conflict, when a save begins and what an error stands for. */
module EditorFile {
  import opened Sequences
  import opened EditorTabs

  // ---------------------------------------------------------------- reads

  /** A read that has returned. */
  function ReadBy(a: Action): Option<File> {
    match a
    case Loaded(Ok(f)) => Some(f)
    case Reread(Ok(f)) => Some(f)
    case _ => None
  }

  /** The tab takes over what was read: it was opening, or had nothing of its own and no save in flight. */
  predicate Adopts(t: Tab, a: Action) {
    ReadBy(a).Some? &&
    if a.Loaded? then t.status == Loading else t.status == Ready && !t.saving && t.content == t.baseline
  }

  /** What was read is another's, against a buffer with something of its own. */
  predicate Clashes(t: Tab, a: Action) {
    a.Reread? && a.file.Ok? && t.status == Ready && !t.saving && t.content != t.baseline && a.file.value.content != t.baseline
  }

  /** A read that returns is taken over, raises a conflict, or changes nothing. */
  lemma ReadsDoOneOfThree(s: State, a: Action)
    requires ReadBy(a).Some?
    ensures var t, f := Next(s, a).tab, ReadBy(a).value;
            if Adopts(s.tab, a) then
              t == Tab(Ready, f.content, f.content, f.crlf, f.readOnly, f.mixedEol, f.size, None, s.tab.saving, None)
            else if Clashes(s.tab, a) then t == s.tab.(conflict := Some(f.content), crlf := f.crlf)
            else t == s.tab
  {
  }

  /** The last read a run took over, and the last it took anything from. */
  function Adopted(actions: seq<Action>): Option<File> {
    if actions == [] then None else
    var front, a := actions[..|actions| - 1], actions[|actions| - 1];
    if Adopts(Run(Initial(), front).tab, a) then ReadBy(a) else Adopted(front)
  }

  function Heeded(actions: seq<Action>): Option<File> {
    if actions == [] then None else
    var front, a := actions[..|actions| - 1], actions[|actions| - 1];
    var t := Run(Initial(), front).tab;
    if Adopts(t, a) || Clashes(t, a) then ReadBy(a) else Heeded(front)
  }

  /** The part of a tab that a read alone decides. */
  predicate DescribedBy(t: Tab, f: File) {
    t.readOnly == f.readOnly && t.mixedEol == f.mixedEol && t.size == f.size
  }

  lemma FlagsMove(s: State, a: Action)
    ensures var t := Next(s, a).tab; Adopts(s.tab, a) ==> t.status == Ready && DescribedBy(t, ReadBy(a).value)
    ensures var t := Next(s, a).tab; !Adopts(s.tab, a) ==> (t.status == Ready <==> s.tab.status == Ready)
    ensures var t := Next(s, a).tab; !Adopts(s.tab, a) ==> t.readOnly == s.tab.readOnly && t.mixedEol == s.tab.mixedEol && t.size == s.tab.size
    ensures Next(s, a).tab.crlf == if Adopts(s.tab, a) || Clashes(s.tab, a) then ReadBy(a).value.crlf else s.tab.crlf
  {
  }

  /** In every run a tab that is ready may be edited, and is described, as the last read it took over
      says, and is saved with the line endings of the last one it took anything from. */
  lemma {:induction false} FlagsAreTheFiles(actions: seq<Action>)
    ensures Run(Initial(), actions).tab.status == Ready <==> Adopted(actions).Some?
    ensures Adopted(actions).Some? ==> DescribedBy(Run(Initial(), actions).tab, Adopted(actions).value)
    ensures Adopted(actions).Some? ==> Heeded(actions).Some? && Run(Initial(), actions).tab.crlf == Heeded(actions).value.crlf
  {
    if actions != [] {
      var front, a := actions[..|actions| - 1], actions[|actions| - 1];
      FlagsAreTheFiles(front);
      FlagsMove(Run(Initial(), front), a);
    }
  }

  /** How the read that opening began turned out, once it has returned. */
  function Opening(actions: seq<Action>): Status {
    if actions == [] then Loading else
    var earlier, a := Opening(actions[..|actions| - 1]), actions[|actions| - 1];
    if earlier != Loading then earlier
    else match a case Loaded(Ok(_)) => Ready case Loaded(Failed(_)) => Error case _ => Loading
  }

  /** In every run the tab is loading until then, and ready or in error for good afterwards. */
  lemma {:induction false} StatusIsTheOpenings(actions: seq<Action>)
    ensures Run(Initial(), actions).tab.status == Opening(actions)
  {
    if actions != [] { StatusIsTheOpenings(actions[..|actions| - 1]); }
  }

  // ---------------------------------------------------------------- typing, saving, resolving

  /** What is typed is in the buffer, unless the file may not be edited. */
  lemma TypingReachesTheBuffer(s: State, content: string)
    ensures var t := Next(s, Edit(content)).tab; t == if s.tab.readOnly then s.tab else s.tab.(content := content, error := None)
  {
  }

  /** A save begins exactly on a ready tab whose buffer differs from the disk, that may be edited, with
      no save in flight and no conflict unresolved; it writes the buffer, and changes nothing of it. */
  lemma SaveBeginsExactlyWhen(s: State)
    requires Inv(s)
    ensures var begins := s.tab.status == Ready && s.tab.content != s.tab.baseline && !s.tab.readOnly && !s.tab.saving && s.tab.conflict.None?;
            Next(s, Save) == if begins then s.(tab := s.tab.(saving := true, error := None), writing := Some(s.tab.content)) else s
  {
  }

  /** A conflict is resolved by taking the disk's text into the buffer, or by holding the buffer
      against it; either way it is the baseline then. */
  lemma ResolvedEitherWay(s: State)
    requires s.tab.conflict.Some?
    ensures var theirs := s.tab.conflict.value;
            && Next(s, Keep).tab == s.tab.(baseline := theirs, conflict := None)
            && Next(s, Take).tab == s.tab.(content := theirs, baseline := theirs, conflict := None)
  {
  }

  // ---------------------------------------------------------------- the error

  /** A step that has something to say of whether the last thing done went well: what, if it failed. */
  function Tells(s: State, a: Action): Option<Option<string>> {
    match a
    case Loaded(Failed(m)) => if s.tab.status == Loading then Some(Some(m)) else None
    case Reread(Failed(m)) => Some(Some(m))
    case Saved(Failed(m)) => if s.writing.Some? then Some(Some(m)) else None
    case Saved(Ok(_)) => if s.writing.Some? then Some(None) else None
    case Edit(_) => if s.tab.readOnly then None else Some(None)
    case Save => if CanSave(s.tab) then Some(None) else None
    case _ => if Adopts(s.tab, a) then Some(None) else None
  }

  function LastTold(actions: seq<Action>): Option<string> {
    if actions == [] then None else
    var front, a := actions[..|actions| - 1], actions[|actions| - 1];
    var told := Tells(Run(Initial(), front), a);
    if told.Some? then told.value else LastTold(front)
  }

  lemma ErrorMoves(s: State, a: Action)
    ensures Next(s, a).tab.error == if Tells(s, a).Some? then Tells(s, a).value else s.tab.error
  {
  }

  /** In every run the tab shows an error exactly from the failure of a read or a save to the next
      thing that goes well. */
  lemma {:induction false} ErrorIsTheLastTold(actions: seq<Action>)
    ensures Run(Initial(), actions).tab.error == LastTold(actions)
  {
    if actions != [] {
      var front, a := actions[..|actions| - 1], actions[|actions| - 1];
      ErrorIsTheLastTold(front);
      ErrorMoves(Run(Initial(), front), a);
    }
  }
}
