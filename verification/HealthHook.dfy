/** The panel's hook as it runs, `frontend/src/lib/useHealth.ts`: refs and state that change in
    place, with its asynchronous read loop cut where it waits. Every method is one uninterrupted
    piece of it, and the hook is always the panel of the pipeline's run so far. */
module HealthHook {
  import opened Sequences
  import HP = HealthPipeline

  /** A session's own steps leave the panel alone. */
  lemma LeavesPanel(w: HP.World, x: HP.State, a: HP.Action)
    requires a.Change? || a.Notify? || a.TakeDirty? || a.Publish? || a.Rest?
    ensures HP.Next(w, x, a).panel == x.panel
  {
  }

  class Hook {
    var target: Option<HP.Target>
    var inFlight: bool
    var stale: bool
    var reader: HP.Reader          // the read loop, suspended at its call
    var shown: HP.Shown
    var error: bool
    ghost const world: HP.World
    ghost const sessions: nat              // how many watch sessions there are
    ghost var trace: seq<HP.Action>        // everything that has happened, on both sides

    function View(): HP.Panel
      reads this
    {
      HP.Panel(target, inFlight, stale, reader, shown, error)
    }

    /** The pipeline as it stands. */
    ghost function Pipeline(): HP.State
      reads this
    {
      HP.Run(world, HP.Initial(sessions), trace)
    }

    ghost predicate Valid()
      reads this
    {
      View() == Pipeline().panel
    }

    constructor (ghost world: HP.World, ghost sessions: nat)
      ensures Valid() && this.world == world && this.sessions == sessions && trace == []
    {
      target, inFlight, stale, reader, shown, error := None, false, false, HP.Idle, HP.Nothing, false;
      this.world, this.sessions, trace := world, sessions, [];
    }

    lemma Logged(a: HP.Action)
      ensures HP.Run(world, HP.Initial(sessions), trace + [a]) == HP.Next(world, Pipeline(), a)
    {
      assert (trace + [a])[..|trace|] == trace;
    }

    /** Something happens on the backend's side. */
    ghost method Elsewhere(a: HP.Action)
      requires Valid() && (a.Change? || a.Notify? || a.TakeDirty? || a.Publish? || a.Rest?)
      modifies `trace
      ensures Valid() && trace == old(trace) + [a]
    {
      Logged(a);
      LeavesPanel(world, Pipeline(), a);
      trace := trace + [a];
    }

    /** The top of the loop's body: up to the call, or out of the loop when nothing is selected. */
    method Ask()
      modifies `inFlight, `stale, `reader
      ensures View() == HP.Begin(old(View()).(inFlight := true))
    {
      stale := false;
      inFlight := true;
      var asked := target;
      if asked.None? {
        inFlight, reader := false, HP.Idle;
      } else {
        reader := HP.Asked(asked.value);
      }
    }

    /** `read`. */
    method Read()
      modifies `inFlight, `stale, `reader
      ensures View() == HP.Read(old(View()))
    {
      if inFlight {
        stale := true;
        return;
      }
      Ask();
    }

    /** The selection effect. */
    method Select(next: Option<HP.Target>)
      requires Valid()
      modifies this
      ensures Valid() && trace == old(trace) + [HP.Select(next)]
      ensures View() == HP.SelectNext(old(View()), next)
    {
      Logged(HP.Select(next));
      trace := trace + [HP.Select(next)];
      target := next;
      shown := HP.Nothing;
      error := false;
      if next.Some? { Read(); }
    }

    /** The returned `refresh`. */
    method Refresh()
      requires Valid()
      modifies this
      ensures Valid() && trace == old(trace) + [HP.Refresh]
      ensures View() == HP.Read(old(View()))
    {
      Logged(HP.Refresh);
      trace := trace + [HP.Refresh];
      Read();
    }

    /** An event of a session arrives; the handler reads if it names the panel's checkout. */
    method OnEvent(s: nat, concerns: bool)
      requires Valid() && s < |Pipeline().sessions| && Pipeline().sessions[s].events > 0
      requires concerns == HP.Concerns(world, View(), s)
      modifies this
      ensures Valid() && trace == old(trace) + [HP.Deliver(s)]
      ensures View() == if concerns then HP.Read(old(View())) else old(View())
    {
      Logged(HP.Deliver(s));
      trace := trace + [HP.Deliver(s)];
      if concerns { Read(); }
    }

    /** The backend answers the call in flight: with its session's snapshot, or not at all. */
    method Answer(version: Option<nat>)
      requires Valid() && reader.Asked?
      requires var k := world.session(reader.target);
               version.Some? ==> k < |Pipeline().sessions| && version.value == Pipeline().sessions[k].version
      modifies `reader, `trace
      ensures Valid() && trace == old(trace) + [HP.Sample(version.Some?)]
      ensures reader == HP.Answered(old(reader).target, version)
    {
      Logged(HP.Sample(version.Some?));
      trace := trace + [HP.Sample(version.Some?)];
      reader := HP.Answered(reader.target, version);
    }

    /** The call has come back: `ask` publishes the answer if the selection has not moved, and
        the loop goes round once more if another read was queued behind it. */
    method Resume()
      requires Valid()
      modifies this
      ensures Valid() && trace == old(trace) + [HP.Return]
      ensures View() == HP.ReturnNext(old(View()))
    {
      Logged(HP.Return);
      trace := trace + [HP.Return];
      if !reader.Answered? { return; }
      var asked := reader.target;
      if target == Some(asked) {
        if reader.version.Some? {
          shown, error := HP.Health(asked, reader.version.value), false;
        } else {
          error := true;
        }
      }
      if stale {
        Ask();
      } else {
        inFlight, reader := false, HP.Idle;
      }
    }

    /** What the hook gives the panel to render is the selection's own, and, once nothing is under
        way, the session as it is unless the last call failed. */
    method Render() returns (rendered: HP.Shown, failed: bool)
      requires Valid()
      ensures rendered == HP.Nothing || target == Some(rendered.target)
      ensures failed == HP.LastCallFailed(world, sessions, trace)
      ensures HP.Quiet(world, Pipeline()) && target.Some? && world.session(target.value) < |Pipeline().sessions| && !failed ==>
                rendered == HP.Health(target.value, Pipeline().sessions[world.session(target.value)].version)
    {
      HP.NeverAnotherTargetsHealth(world, sessions, trace);
      HP.ErrorIsTheLastCalls(world, sessions, trace);
      HP.SettlesCurrent(world, sessions, trace);
      rendered, failed := shown, error;
    }
  }
}
