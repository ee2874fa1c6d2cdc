/** What a row says, told from the list and the events alone (`applyList`, `applyEvent` and `consume`
    of `internal/kubewatch/pump.go`): the last event about its object decides, and the list if there
    has been none. */
module WatchVerdicts {
  import opened Sequences
  import opened WatchPlan
  import opened WatchSession

  /** The event adds, modifies or deletes the object of this name. */
  predicate Concerns(e: Event, name: string) {
    e.live.Some? && e.live.value.name == name && (e.kind.Added? || e.kind.Modified? || e.kind.Deleted?)
  }

  /** It is the last that does. */
  predicate LastAbout(events: seq<Event>, name: string, k: nat) {
    k < |events| && Concerns(events[k], name) && forall j | k < j < |events| :: !Concerns(events[j], name)
  }

  predicate NoneAbout(events: seq<Event>, name: string) {
    forall j | 0 <= j < |events| :: !Concerns(events[j], name)
  }

  /** The list's last item of this name. */
  predicate LastListed(items: seq<Live>, name: string, k: nat) {
    k < |items| && items[k].name == name && forall j | k < j < |items| :: items[j].name != name
  }

  predicate NotListed(items: seq<Live>, name: string) {
    forall j | 0 <= j < |items| :: items[j].name != name
  }

  lemma {:induction false} ListedLast(items: seq<Live>, name: string, k: nat)
    requires LastListed(items, name, k)
    ensures name in Listed(items) && Listed(items)[name] == items[k]
  {
    if k < |items| - 1 { ListedLast(items[..|items| - 1], name, k); }
  }

  lemma {:induction false} ListedNone(items: seq<Live>, name: string)
    requires NotListed(items, name)
    ensures name !in Listed(items)
  {
    if items != [] { ListedNone(items[..|items| - 1], name); }
  }

  lemma UnconcernedKept(view: map<string, Live>, e: Event, name: string)
    requires !Concerns(e, name)
    ensures name in Observe(view, e) <==> name in view
    ensures name in view ==> Observe(view, e)[name] == view[name]
  {
  }

  lemma {:induction false} ViewByLastEvent(view: map<string, Live>, events: seq<Event>, name: string, k: nat)
    requires LastAbout(events, name, k)
    ensures name in ObserveAll(view, events) <==> !events[k].kind.Deleted?
    ensures !events[k].kind.Deleted? ==> ObserveAll(view, events)[name] == events[k].live.value
  {
    if k < |events| - 1 {
      var front := events[..|events| - 1];
      ViewByLastEvent(view, front, name, k);
      UnconcernedKept(ObserveAll(view, front), events[|events| - 1], name);
    }
  }

  lemma {:induction false} ViewUnconcerned(view: map<string, Live>, events: seq<Event>, name: string)
    requires NoneAbout(events, name)
    ensures name in ObserveAll(view, events) <==> name in view
    ensures name in view ==> ObserveAll(view, events)[name] == view[name]
  {
    if events != [] {
      var front := events[..|events| - 1];
      ViewUnconcerned(view, front, name);
      UnconcernedKept(ObserveAll(view, front), events[|events| - 1], name);
    }
  }

  predicate Says(row: Status, v: Verdict) {
    row.health == v.health && row.message == v.message
  }

  predicate SaysAbsent(row: Status) {
    row.health == NotFound && row.message == ""
  }

  /** A row whose group shows what this list and these events came to, in terms of them: deleted last,
      its object is not found; added or modified last, it has the verdict on that state; with no event
      about it, it has the verdict on the list's last item of its name, and without one is not found. */
  lemma RowByLastEvent(rows: seq<Status>, g: Group, compute: Live -> Verdict, items: seq<Live>, events: seq<Event>, name: string, i: nat)
    requires Shows(rows, g, compute, ObserveAll(Listed(items), events)) && name in g.names && i in g.names[name]
    ensures i < |rows|
    ensures forall k: nat | LastAbout(events, name, k) ::
              if events[k].kind.Deleted? then SaysAbsent(rows[i]) else Says(rows[i], compute(events[k].live.value))
    ensures NoneAbout(events, name) ==> forall k: nat | LastListed(items, name, k) :: Says(rows[i], compute(items[k]))
    ensures NoneAbout(events, name) && NotListed(items, name) ==> SaysAbsent(rows[i])
  {
    var view := ObserveAll(Listed(items), events);
    OwnRow(rows, g, compute, view, name, i);
    forall k: nat | LastAbout(events, name, k)
      ensures if events[k].kind.Deleted? then SaysAbsent(rows[i]) else Says(rows[i], compute(events[k].live.value))
    {
      ViewByLastEvent(Listed(items), events, name, k);
    }
    if NoneAbout(events, name) {
      ViewUnconcerned(Listed(items), events, name);
      forall k: nat | LastListed(items, name, k) ensures Says(rows[i], compute(items[k])) { ListedLast(items, name, k); }
      if NotListed(items, name) { ListedNone(items, name); }
    }
  }

  // ---------------------------------------------------------------- where a watch resumes

  predicate Carries(e: Event) {
    e.live.Some? && e.live.value.version != ""
  }

  /** At the version of the last event that carried one, and without any where it was. */
  lemma {:induction false} ResumesAtTheLast(version: string, events: seq<Event>)
    ensures forall k | 0 <= k < |events| && Carries(events[k]) && (forall j | k < j < |events| :: !Carries(events[j])) ::
              ResumeAt(version, events) == events[k].live.value.version
    ensures (forall j | 0 <= j < |events| :: !Carries(events[j])) ==> ResumeAt(version, events) == version
  {
    if events != [] { ResumesAtTheLast(version, events[..|events| - 1]); }
  }
}
