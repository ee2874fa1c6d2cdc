/** The rows of a watch session and the pumps that keep them current: the state half of
    `internal/kubewatch/session.go` and all of `internal/kubewatch/pump.go`. The cluster is a
    list of objects and a stream of events; what kstatus makes of an object is a parameter. */
module WatchSession {
  import opened Sequences
  import opened WatchPlan

  datatype Notice = Notice(file: string, reason: string)

  /** One object as the cluster has it. `state` is whatever kstatus reads. */
  datatype Live = Live(name: string, version: string, state: int)

  datatype Verdict = Verdict(health: Health, message: string)

  const ABSENT := Verdict(NotFound, "")

  datatype Kind = Added | Modified | Deleted | Bookmark | Error

  /** A watch event; one whose payload is not an object carries none. */
  datatype Event = Event(kind: Kind, live: Option<Live>)

  /** What a group's first request comes back with. */
  datatype Listing = Items(items: seq<Live>, version: string) | Refused(message: string) | Broken

  datatype Snapshot = Snapshot(phase: Phase, reason: string, objects: seq<Status>, notices: seq<Notice>)

  // ---------------------------------------------------------------- the cluster, as events describe it

  /** The latest state of each object a list names. */
  function Listed(items: seq<Live>): map<string, Live> {
    if items == [] then map[] else
    var earlier, last := Listed(items[..|items| - 1]), items[|items| - 1];
    earlier[last.name := last]
  }

  function Observe(view: map<string, Live>, e: Event): map<string, Live> {
    if e.live.None? then view
    else match e.kind
      case Added => view[e.live.value.name := e.live.value]
      case Modified => view[e.live.value.name := e.live.value]
      case Deleted => view - {e.live.value.name}
      case Bookmark => view
      case Error => view
  }

  function ObserveAll(view: map<string, Live>, events: seq<Event>): map<string, Live> {
    if events == [] then view
    else Observe(ObserveAll(view, events[..|events| - 1]), events[|events| - 1])
  }

  lemma ObserveSnoc(view: map<string, Live>, events: seq<Event>, e: Event)
    ensures ObserveAll(view, events + [e]) == Observe(ObserveAll(view, events), e)
  {
    assert (events + [e])[..|events|] == events;
  }

  lemma {:induction false} ObserveConcat(view: map<string, Live>, a: seq<Event>, b: seq<Event>)
    ensures ObserveAll(view, a + b) == ObserveAll(ObserveAll(view, a), b)
  {
    if b == [] {
      assert a + b == a;
    } else {
      assert (a + b)[..|a + b| - 1] == a + b[..|b| - 1];
      ObserveConcat(view, a, b[..|b| - 1]);
    }
  }

  /** Where a watch resumes: the last version any event carried. */
  function ResumeAt(version: string, events: seq<Event>): string {
    if events == [] then version
    else Resumed(ResumeAt(version, events[..|events| - 1]), events[|events| - 1])
  }

  lemma {:induction false} ResumeConcat(version: string, a: seq<Event>, b: seq<Event>)
    ensures ResumeAt(version, a + b) == ResumeAt(ResumeAt(version, a), b)
  {
    if b == [] {
      assert a + b == a;
    } else {
      assert (a + b)[..|a + b| - 1] == a + b[..|b| - 1];
      ResumeConcat(version, a, b[..|b| - 1]);
    }
  }

  function Resumed(version: string, e: Event): string {
    if e.live.Some? && e.live.value.version != "" then e.live.value.version else version
  }

  lemma EventsSnoc(view: map<string, Live>, version: string, events: seq<Event>, k: nat)
    requires k < |events|
    ensures ObserveAll(view, events[..k + 1]) == Observe(ObserveAll(view, events[..k]), events[k])
    ensures ResumeAt(version, events[..k + 1]) == Resumed(ResumeAt(version, events[..k]), events[k])
  {
    assert events[..k + 1][..k] == events[..k];
  }

  // ---------------------------------------------------------------- one group's rows

  /** Rows are within the list and no row is filed twice. */
  ghost predicate Fits(g: Group, rows: nat) {
    && (forall name, j | name in g.names && 0 <= j < |g.names[name]| :: g.names[name][j] < rows)
    && (forall a, j, b, k | a in g.names && b in g.names && 0 <= j < |g.names[a]| && 0 <= k < |g.names[b]|
                            && g.names[a][j] == g.names[b][k] :: a == b)
  }

  predicate Covers(g: Group, i: nat) {
    exists name | name in g.names :: i in g.names[name]
  }

  function VerdictOf(compute: Live -> Verdict, view: map<string, Live>, name: string): Verdict {
    if name in view then compute(view[name]) else ABSENT
  }

  /** Every row of the group carries the verdict on its object's latest state, or NotFound. */
  ghost predicate Shows(rows: seq<Status>, g: Group, compute: Live -> Verdict, view: map<string, Live>) {
    forall name, i {:trigger i in g.names[name]} | name in g.names && i in g.names[name] ::
      i < |rows| && Verdict(rows[i].health, rows[i].message) == VerdictOf(compute, view, name)
  }

  /** Rows outside the group are untouched, and no row changes what it is about. */
  ghost predicate OnlyWithin(before: seq<Status>, after: seq<Status>, g: Group) {
    && |after| == |before|
    && (forall i | 0 <= i < |before| && !Covers(g, i) :: after[i] == before[i])
    && (forall i | 0 <= i < |before| ::
          after[i] == before[i].(health := after[i].health, message := after[i].message))
  }

  /** The rows whose index is in the list, marked. */
  ghost predicate Marked(before: seq<Status>, after: seq<Status>, indices: seq<nat>, v: Verdict) {
    && |after| == |before|
    && forall i | 0 <= i < |before| ::
         after[i] == if i in indices then before[i].(health := v.health, message := v.message) else before[i]
  }

  class Session {
    const compute: Live -> Verdict
    var phase: Phase
    var reason: string
    var objects: seq<Status>
    var notices: seq<Notice>
    var replanned: bool        // the one-slot channel asking for a rebuild
    var dirty: bool            // the one-slot channel asking for a publish

    constructor (compute: Live -> Verdict)
      ensures this.compute == compute && View() == Snapshot(Connecting, "", [], []) && !replanned && !dirty
    {
      this.compute := compute;
      phase, reason, objects, notices := Connecting, "", [], [];
      replanned, dirty := false, false;
    }

    /** `snapshot`: what the panel is told. */
    function View(): Snapshot
      reads this
    {
      Snapshot(phase, reason, objects, notices)
    }

    /** `replan` never blocks: a request already waiting covers this one. */
    method Replan()
      modifies `replanned
      ensures replanned
    {
      if !replanned { replanned := true; }
    }

    /** `changed` never blocks either. */
    method Changed()
      modifies `dirty
      ensures dirty
    {
      if !dirty { dirty := true; }
    }

    method SetPhase(phase: Phase, reason: string)
      modifies `phase, `reason, `dirty
      ensures View() == old(View()).(phase := phase, reason := reason)
      ensures dirty == (old(dirty) || View() != old(View()))
    {
      var changed := this.phase != phase || this.reason != reason;
      this.phase, this.reason := phase, reason;
      if changed { Changed(); }
    }

    method SetNotices(notices: seq<Notice>)
      modifies `notices, `dirty
      ensures View() == old(View()).(notices := notices) && dirty
    {
      this.notices := notices;
      Changed();
    }

    /** Every row starts as the plan made it: nothing carries over from the rows before. */
    method Seed(order: seq<Status>)
      modifies `objects, `dirty
      ensures View() == old(View()).(objects := order) && dirty
    {
      objects := order;
      Changed();
    }

    method Clear()
      modifies `objects, `dirty
      ensures View() == old(View()).(objects := []) && dirty
    {
      objects := [];
      Changed();
    }

    /** Records one row's health; only a row that reads differently is announced. */
    method Mark(index: nat, v: Verdict)
      modifies `objects, `dirty
      ensures objects == if index < |old(objects)|
                         then old(objects)[index := old(objects)[index].(health := v.health, message := v.message)]
                         else old(objects)
      ensures dirty == (old(dirty) || objects != old(objects))
    {
      var changed := false;
      if index < |objects| {
        var current := objects[index];
        changed := current.health != v.health || current.message != v.message;
        objects := objects[index := current.(health := v.health, message := v.message)];
      }
      if changed { Changed(); }
    }

    /** The inner loop of `record`, `applyList`, `applyEvent` and `parkGroup`. */
    method MarkAll(indices: seq<nat>, v: Verdict)
      modifies `objects, `dirty
      ensures Marked(old(objects), objects, indices, v)
      ensures old(dirty) ==> dirty
      ensures objects != old(objects) ==> dirty
    {
      for k := 0 to |indices|
        invariant Marked(old(objects), objects, indices[..k], v)
        invariant old(dirty) ==> dirty
        invariant objects != old(objects) ==> dirty
      {
        Mark(indices[k], v);
        assert indices[..k + 1] == indices[..k] + [indices[k]];
      }
      assert indices[..|indices|] == indices;
    }

    /** `record`: an object nobody declared is somebody else's. */
    method Record(g: Group, live: Live)
      modifies `objects, `dirty
      ensures Marked(old(objects), objects, if live.name in g.names then g.names[live.name] else [], compute(live))
      ensures (old(dirty) ==> dirty) && (objects != old(objects) ==> dirty)
    {
      if live.name in g.names {
        MarkAll(g.names[live.name], compute(live));
      }
    }

    /** The first loop of `applyList`: what the list found. */
    method RecordListed(g: Group, items: seq<Live>) returns (seen: set<string>)
      requires Fits(g, |objects|)
      modifies `objects, `dirty
      ensures OnlyWithin(old(objects), objects, g)
      ensures forall name, i | name in g.names && i in g.names[name] && name in Listed(items) ::
                Verdict(objects[i].health, objects[i].message) == compute(Listed(items)[name])
      ensures seen == Listed(items).Keys
      ensures (old(dirty) ==> dirty) && (objects != old(objects) ==> dirty)
    {
      seen := {};
      for k := 0 to |items|
        invariant OnlyWithin(old(objects), objects, g)
        invariant forall name, i | name in g.names && i in g.names[name] && name in Listed(items[..k]) ::
                    Verdict(objects[i].health, objects[i].message) == compute(Listed(items[..k])[name])
        invariant seen == Listed(items[..k]).Keys
        invariant (old(dirty) ==> dirty) && (objects != old(objects) ==> dirty)
      {
        ghost var before := objects;
        Record(g, items[k]);
        seen := seen + {items[k].name};
        assert items[..k + 1][..k] == items[..k];
      }
      assert items[..|items|] == items;
    }

    /** The second loop of `applyList`: what the list did not return is absent. */
    method MarkAbsent(g: Group, seen: set<string>)
      requires Fits(g, |objects|)
      modifies `objects, `dirty
      ensures OnlyWithin(old(objects), objects, g)
      ensures forall name, i | name in g.names && i in g.names[name] ::
                Verdict(objects[i].health, objects[i].message) ==
                if name in seen then Verdict(old(objects)[i].health, old(objects)[i].message) else ABSENT
      ensures (old(dirty) ==> dirty) && (objects != old(objects) ==> dirty)
    {
      var left := g.names.Keys;
      while left != {}
        invariant left <= g.names.Keys
        invariant OnlyWithin(old(objects), objects, g)
        invariant forall name, i | name in g.names && i in g.names[name] ::
                    Verdict(objects[i].health, objects[i].message) ==
                    if name in seen || name in left then Verdict(old(objects)[i].health, old(objects)[i].message) else ABSENT
        invariant (old(dirty) ==> dirty) && (objects != old(objects) ==> dirty)
        decreases left
      {
        var name :| name in left;
        if name !in seen { MarkAll(g.names[name], ABSENT); }
        left := left - {name};
      }
    }

    /** `applyList`: afterwards every row of the group says what the list said, or NotFound. */
    method ApplyList(g: Group, items: seq<Live>)
      requires Fits(g, |objects|)
      modifies `objects, `dirty
      ensures Shows(objects, g, compute, Listed(items)) && OnlyWithin(old(objects), objects, g)
      ensures (old(dirty) ==> dirty) && (objects != old(objects) ==> dirty)
    {
      var seen := RecordListed(g, items);
      MarkAbsent(g, seen);
    }

    /** `applyEvent` behind `consume`: the rows follow the object, and the resume point its version. */
    method Consume(g: Group, e: Event, version: string, ghost view: map<string, Live>) returns (resume: string)
      requires Fits(g, |objects|) && Shows(objects, g, compute, view)
      modifies `objects, `dirty
      ensures Shows(objects, g, compute, Observe(view, e)) && OnlyWithin(old(objects), objects, g)
      ensures resume == Resumed(version, e)
      ensures (old(dirty) ==> dirty) && (objects != old(objects) ==> dirty)
    {
      if e.live.None? { return version; }
      var live := e.live.value;
      resume := if live.version != "" then live.version else version;
      match e.kind
      case Added => Record(g, live);
      case Modified => Record(g, live);
      case Deleted => if live.name in g.names { MarkAll(g.names[live.name], ABSENT); }
      case Bookmark =>
      case Error =>
    }

    /** `followFrom`: consumes a watch until it closes or reports an error. */
    method FollowFrom(g: Group, events: seq<Event>, version: string, ghost view: map<string, Live>)
      returns (resume: string, delivered: bool, failed: bool, ghost consumed: nat)
      requires Fits(g, |objects|) && Shows(objects, g, compute, view)
      modifies `objects, `dirty
      ensures consumed <= |events|
      ensures forall k | 0 <= k < consumed :: !events[k].kind.Error?
      ensures failed <==> consumed < |events|
      ensures failed ==> events[consumed].kind.Error?
      ensures delivered <==> consumed > 0
      ensures Shows(objects, g, compute, ObserveAll(view, events[..consumed])) && OnlyWithin(old(objects), objects, g)
      ensures !failed ==> resume == ResumeAt(version, events)
      ensures (old(dirty) ==> dirty) && (objects != old(objects) ==> dirty)
    {
      resume, delivered, consumed := version, false, 0;
      for k := 0 to |events|
        invariant consumed == k && (delivered <==> k > 0)
        invariant forall j | 0 <= j < k :: !events[j].kind.Error?
        invariant Shows(objects, g, compute, ObserveAll(view, events[..k])) && OnlyWithin(old(objects), objects, g)
        invariant resume == ResumeAt(version, events[..k])
        invariant (old(dirty) ==> dirty) && (objects != old(objects) ==> dirty)
      {
        if events[k].kind.Error? { return "", delivered, true, k; }
        delivered := true;
        EventsSnoc(view, version, events, k);
        resume := Consume(g, events[k], resume, ObserveAll(view, events[..k]));
        consumed := k + 1;
      }
      assert events[..|events|] == events;
      failed := false;
    }

    /** `parkGroup`: a group this user may not read says so on every row. */
    method ParkGroup(g: Group, message: string)
      requires Fits(g, |objects|)
      modifies `objects, `dirty
      ensures OnlyWithin(old(objects), objects, g)
      ensures forall name, i | name in g.names && i in g.names[name] ::
                objects[i].health == Unknown && objects[i].message == message
      ensures (old(dirty) ==> dirty) && (objects != old(objects) ==> dirty)
    {
      var left := g.names.Keys;
      while left != {}
        invariant left <= g.names.Keys
        invariant OnlyWithin(old(objects), objects, g)
        invariant forall name, i | name in g.names && i in g.names[name] && name !in left ::
                    objects[i].health == Unknown && objects[i].message == message
        invariant (old(dirty) ==> dirty) && (objects != old(objects) ==> dirty)
        decreases left
      {
        var name :| name in left;
        MarkAll(g.names[name], Verdict(Unknown, message));
        left := left - {name};
      }
    }

    /** One more watch, behind what the earlier ones delivered. */
    method FollowNext(g: Group, events: seq<Event>, version: string, ghost base: map<string, Live>, ghost before: seq<Event>)
      returns (resume: string, failed: bool, ghost consumed: nat)
      requires Fits(g, |objects|) && Shows(objects, g, compute, ObserveAll(base, before))
      modifies `objects, `dirty
      ensures consumed <= |events| && (!failed ==> consumed == |events| && resume == ResumeAt(version, events))
      ensures Shows(objects, g, compute, ObserveAll(base, before + events[..consumed])) && OnlyWithin(old(objects), objects, g)
      ensures (old(dirty) ==> dirty) && (objects != old(objects) ==> dirty)
    {
      var delivered;
      resume, delivered, failed, consumed := FollowFrom(g, events, version, ObserveAll(base, before));
      ObserveConcat(base, before, events[..consumed]);
    }

    /** The loop of `pump`: watch after watch until one fails, each asked for from where the one before
        it stopped. */
    method FollowAll(g: Group, watches: seq<seq<Event>>, first: string, ghost base: map<string, Live>)
      returns (failed: bool, asked: seq<string>, ghost seen: seq<Event>)
      requires Fits(g, |objects|) && Shows(objects, g, compute, base)
      modifies `objects, `dirty
      ensures OnlyWithin(old(objects), objects, g) && Shows(objects, g, compute, ObserveAll(base, seen))
      ensures seen <= Flat(watches) && (!failed ==> seen == Flat(watches) && |asked| == |watches|)
      ensures |asked| <= |watches| && forall n | 0 <= n < |asked| :: asked[n] == ResumeAt(first, Flat(watches[..n]))
      ensures (old(dirty) ==> dirty) && (objects != old(objects) ==> dirty)
    {
      var version := first;
      failed, asked, seen := false, [], [];
      for n := 0 to |watches|
        invariant OnlyWithin(old(objects), objects, g) && Shows(objects, g, compute, ObserveAll(base, seen))
        invariant seen == Flat(watches[..n])
        invariant version == ResumeAt(first, seen) && |asked| == n
        invariant forall m | 0 <= m < n :: asked[m] == ResumeAt(first, Flat(watches[..m]))
        invariant (old(dirty) ==> dirty) && (objects != old(objects) ==> dirty)
      {
        FlatNext(watches, n);
        asked := asked + [version];
        ResumeConcat(first, seen, watches[n]);
        ghost var consumed;
        version, failed, consumed := FollowNext(g, watches[n], version, base, seen);
        seen := seen + watches[n][..consumed];
        if failed { return; }
        assert watches[n][..consumed] == watches[n];
      }
      assert watches[..|watches|] == watches;
    }

    /** `pump`: list once, then follow watch after watch until one fails, each asked for from where
        the one before it stopped. Whatever was delivered, each row of the group shows its object's
        latest state. */
    method Pump(g: Group, listing: Listing, watches: seq<seq<Event>>)
      returns (failed: bool, asked: seq<string>, ghost seen: seq<Event>)
      requires Fits(g, |objects|)
      modifies `objects, `dirty
      ensures OnlyWithin(old(objects), objects, g)
      ensures seen <= Flat(watches)
      ensures listing.Items? && !failed ==> seen == Flat(watches) && |asked| == |watches|
      ensures |asked| <= |watches| && forall n | 0 <= n < |asked| ::
                listing.Items? && asked[n] == ResumeAt(listing.version, Flat(watches[..n]))
      ensures listing.Items? ==> Shows(objects, g, compute, ObserveAll(Listed(listing.items), seen))
      ensures listing.Refused? ==> forall name, i | name in g.names && i in g.names[name] ::
                objects[i].health == Unknown && objects[i].message == listing.message
      ensures listing.Broken? ==> objects == old(objects)
      ensures (old(dirty) ==> dirty) && (objects != old(objects) ==> dirty)
    {
      seen, asked := [], [];
      match listing
      case Broken => failed := true;
      case Refused(message) => ParkGroup(g, message); failed := true;
      case Items(items, version) =>
        ApplyList(g, items);
        failed, asked, seen := FollowAll(g, watches, version, Listed(items));
    }
  }

  lemma FlatNext(watches: seq<seq<Event>>, n: nat)
    requires n < |watches|
    ensures Flat(watches[..n + 1]) == Flat(watches[..n]) + watches[n]
    ensures Flat(watches[..n]) + watches[n] <= Flat(watches)
    ensures forall k | 0 <= k <= |watches[n]| :: Flat(watches[..n]) + watches[n][..k] <= Flat(watches)
  {
    assert watches[..n + 1] == watches[..n] + [watches[n]];
    FlatSnoc(watches[..n], watches[n]);
    FlatPrefix(watches, n + 1);
  }

  lemma FlatPrefix(watches: seq<seq<Event>>, n: nat)
    requires n <= |watches|
    ensures Flat(watches[..n]) <= Flat(watches)
  {
    assert watches == watches[..n] + watches[n..];
    FlatConcat(watches[..n], watches[n..]);
  }

  // ---------------------------------------------------------------- groups beside each other

  /** The groups of one plan fit its rows and share none. */
  lemma PlanFits(mapper: Mapper, declared: seq<Object>, fallback: string, groups: map<GroupKey, Group>, key: GroupKey)
    requires Owns(mapper, declared, fallback, groups) && key in groups
    ensures Fits(groups[key], |declared|)
    ensures forall other, i | other in groups && Covers(groups[key], i) && Covers(groups[other], i) :: other == key
  {
    forall k, name, j | k in groups && name in groups[k].names && 0 <= j < |groups[k].names[name]|
      ensures var i := groups[k].names[name][j];
              i < |declared| && declared[i].name == name && KeyOf(mapper, declared[i], fallback) == Some(k)
    {
      assert groups[k].names[name] == IndicesIn(groups, k, name) == IndicesFor(mapper, declared, fallback, k, name);
      assert groups[k].names[name][j] in IndicesFor(mapper, declared, fallback, k, name);
    }
  }

  lemma OwnRow(rows: seq<Status>, g: Group, compute: Live -> Verdict, view: map<string, Live>, name: string, i: nat)
    requires Shows(rows, g, compute, view) && name in g.names && i in g.names[name]
    ensures Covers(g, i) && i < |rows|
    ensures Verdict(rows[i].health, rows[i].message) == VerdictOf(compute, view, name)
  {
  }

  /** What one group's pump does leaves what another group shows as it was. */
  lemma OthersUndisturbed(before: seq<Status>, after: seq<Status>, g: Group, other: Group,
                          compute: Live -> Verdict, view: map<string, Live>)
    requires OnlyWithin(before, after, g) && Shows(before, other, compute, view)
    requires forall i | Covers(g, i) :: !Covers(other, i)
    ensures Shows(after, other, compute, view)
  {
    forall name, i | name in other.names && i in other.names[name]
      ensures i < |after| && Verdict(after[i].health, after[i].message) == VerdictOf(compute, view, name)
    {
      OwnRow(before, other, compute, view, name, i);
      assert !Covers(g, i);
      assert after[i] == before[i];
    }
  }

  // ---------------------------------------------------------------- the field selector

  /** `options`: a group of one name asks the server for that name only. */
  predicate Selected(g: Group, name: string) {
    |g.names| != 1 || name in g.names
  }

  function NarrowList(g: Group, items: seq<Live>): seq<Live> {
    if items == [] then []
    else NarrowList(g, items[..|items| - 1]) + (if Selected(g, items[|items| - 1].name) then [items[|items| - 1]] else [])
  }

  function NarrowEvents(g: Group, events: seq<Event>): seq<Event> {
    if events == [] then [] else
    var e := events[|events| - 1];
    NarrowEvents(g, events[..|events| - 1]) + (if e.live.None? || Selected(g, e.live.value.name) then [e] else [])
  }

  /** Two views a group cannot tell apart. */
  ghost predicate Agree(g: Group, a: map<string, Live>, b: map<string, Live>) {
    forall name | name in g.names :: (name in a <==> name in b) && (name in a ==> a[name] == b[name])
  }

  lemma {:induction false} NarrowListAgrees(g: Group, items: seq<Live>)
    ensures Agree(g, Listed(NarrowList(g, items)), Listed(items))
  {
    if items != [] {
      var front, last := items[..|items| - 1], items[|items| - 1];
      NarrowListAgrees(g, front);
      if Selected(g, last.name) {
        assert NarrowList(g, items)[..|NarrowList(g, front)|] == NarrowList(g, front);
      } else {
        assert NarrowList(g, items) == NarrowList(g, front);
      }
    }
  }

  lemma {:induction false} NarrowEventsAgree(g: Group, a: map<string, Live>, b: map<string, Live>, events: seq<Event>)
    requires Agree(g, a, b)
    ensures Agree(g, ObserveAll(a, NarrowEvents(g, events)), ObserveAll(b, events))
  {
    if events != [] {
      var front, e := events[..|events| - 1], events[|events| - 1];
      NarrowEventsAgree(g, a, b, front);
      if e.live.None? || Selected(g, e.live.value.name) {
        ObserveSnoc(a, NarrowEvents(g, front), e);
      } else {
        assert NarrowEvents(g, events) == NarrowEvents(g, front);
      }
    }
  }

  /** Narrowing the request to one name changes nothing any row of the group shows. */
  lemma NarrowingLosesNothing(rows: seq<Status>, g: Group, compute: Live -> Verdict, items: seq<Live>, events: seq<Event>)
    ensures Shows(rows, g, compute, ObserveAll(Listed(NarrowList(g, items)), NarrowEvents(g, events)))
            <==> Shows(rows, g, compute, ObserveAll(Listed(items), events))
  {
    NarrowListAgrees(g, items);
    NarrowEventsAgree(g, Listed(NarrowList(g, items)), Listed(items), events);
  }
}
