/** The strip of editor tabs, `frontend/src/lib/useEditorTabs.ts`: asynchronous results find their
    tab by a key that is never used again, and touch no other. */
module EditorStrip {
  import opened Sequences
  import opened EditorTabs

  /** One open tab. */
  datatype Slot = Slot(key: nat, project: string, path: string, state: State)

  /** `mapTab`. */
  function MapSlot(slots: seq<Slot>, key: nat, a: Action): (r: seq<Slot>)
    ensures |r| == |slots|
    ensures forall i | 0 <= i < |slots| ::
              r[i] == if slots[i].key == key then slots[i].(state := Next(slots[i].state, a)) else slots[i]
  {
    if slots == [] then [] else
    var last := slots[|slots| - 1];
    MapSlot(slots[..|slots| - 1], key, a) + [if last.key == key then last.(state := Next(last.state, a)) else last]
  }

  /** `removeTab`. */
  function Remove(slots: seq<Slot>, key: nat): (r: seq<Slot>)
    ensures forall x :: x in r <==> x in slots && x.key != key
  {
    if slots == [] then [] else
    var front, last := Remove(slots[..|slots| - 1], key), slots[|slots| - 1];
    assert slots == slots[..|slots| - 1] + [last];
    if last.key == key then front else front + [last]
  }

  predicate Ascending(slots: seq<Slot>, limit: nat) {
    && (forall i, j | 0 <= i < j < |slots| :: slots[i].key < slots[j].key)
    && (forall i | 0 <= i < |slots| :: slots[i].key <= limit)
  }

  predicate AllInv(slots: seq<Slot>) {
    forall i | 0 <= i < |slots| :: Inv(slots[i].state)
  }

  lemma RemoveKeepsInv(slots: seq<Slot>, key: nat)
    requires AllInv(slots)
    ensures AllInv(Remove(slots, key))
  {
    var r := Remove(slots, key);
    forall i | 0 <= i < |r| ensures Inv(r[i].state) {
      assert r[i] in r;
    }
  }

  lemma {:induction false} RemoveKeepsOrder(slots: seq<Slot>, key: nat, limit: nat)
    requires Ascending(slots, limit)
    ensures Ascending(Remove(slots, key), limit)
  {
    if slots != [] {
      var front, last := slots[..|slots| - 1], slots[|slots| - 1];
      RemoveKeepsOrder(front, key, limit);
      var r := Remove(front, key);
      forall i | 0 <= i < |r| ensures r[i].key < last.key {
        assert r[i] in r;
        assert r[i] in front;
      }
      AscendingSnoc(r, last, limit);
    }
  }

  lemma AscendingSnoc(slots: seq<Slot>, last: Slot, limit: nat)
    requires Ascending(slots, limit) && last.key <= limit && forall i | 0 <= i < |slots| :: slots[i].key < last.key
    ensures Ascending(slots + [last], limit)
  {
  }

  class Strip {
    var slots: seq<Slot>
    var keys: nat                // the last key handed out

    ghost predicate Valid()
      reads this
    {
      Ascending(slots, keys) && AllInv(slots)
    }

    constructor ()
      ensures Valid() && slots == [] && keys == 0
    {
      slots, keys := [], 0;
    }

    /** `findTabKey`. */
    method Find(project: string, path: string) returns (key: Option<nat>)
      ensures key.None? <==> forall s | s in slots :: !(s.project == project && s.path == path)
      ensures key.Some? ==> exists s | s in slots :: s.key == key.value && s.project == project && s.path == path
    {
      for i := 0 to |slots|
        invariant forall k | 0 <= k < i :: !(slots[k].project == project && slots[k].path == path)
      {
        if slots[i].project == project && slots[i].path == path {
          assert slots[i] in slots;
          return Some(slots[i].key);
        }
      }
      return None;
    }

    /** `open`: a file that has a tab is focused, any other gets a tab under a key never used before. */
    method Open(project: string, path: string) returns (key: nat)
      requires Valid()
      modifies this
      ensures Valid()
      ensures if exists s | s in old(slots) :: s.project == project && s.path == path
              then slots == old(slots) && keys == old(keys) && exists s | s in slots :: s.key == key && s.project == project && s.path == path
              else key > old(keys) && keys == key && slots == old(slots) + [Slot(key, project, path, Initial())]
    {
      var existing := Find(project, path);
      if existing.Some? { return existing.value; }
      keys := keys + 1;
      key := keys;
      slots := slots + [Slot(key, project, path, Initial())];
    }

    /** A step of one tab: the user's, or a backend call that has returned. */
    method Step(key: nat, a: Action)
      requires Valid()
      modifies `slots
      ensures Valid() && slots == MapSlot(old(slots), key, a)
    {
      slots := MapSlot(slots, key, a);
      forall i | 0 <= i < |slots| ensures Inv(slots[i].state) {
        InvKept(old(slots)[i].state, a);
      }
    }

    /** `close`. */
    method Close(key: nat)
      requires Valid()
      modifies `slots
      ensures Valid() && slots == Remove(old(slots), key)
    {
      RemoveKeepsOrder(slots, key, keys);
      RemoveKeepsInv(slots, key);
      slots := Remove(slots, key);
    }
  }

  /** A call that returns after its tab was closed changes nothing, whatever was opened since. */
  lemma LateResultsAreDropped(slots: seq<Slot>, key: nat, limit: nat, later: seq<Slot>, a: Action)
    requires Ascending(slots, limit) && key <= limit && forall s | s in later :: s.key > limit
    ensures var now := Remove(slots, key) + later; MapSlot(now, key, a) == now
  {
    var now := Remove(slots, key) + later;
    forall i | 0 <= i < |now| ensures now[i].key != key {
      assert now[i] in Remove(slots, key) || now[i] in later;
    }
  }
}
