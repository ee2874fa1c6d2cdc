/** Rows and connections, `internal/kubewatch/plan.go`: every declared object becomes a row, and
    every row the cluster can answer for belongs to exactly one list-and-watch group. */
module WatchPlan {
  import opened Sequences

  datatype Object = Object(apiVersion: string, kind: string, namespace: string, name: string, file: string)

  datatype Health = Unknown | Current | InProgress | Failed | Terminating | NotFound

  /** What a session as a whole says of its connection. */
  datatype Phase = Idle | Connecting | Watching | Reconnecting | Unauthorized

  datatype Status = Status(
    apiVersion: string, kind: string, namespace: string, name: string, file: string,
    health: Health, message: string)

  /** What the cluster's discovery answers for a kind. */
  datatype Mapping = Served(resource: string, namespaced: bool) | NotServed(reason: string)

  type Mapper = (string, string) -> Mapping

  datatype GroupKey = GroupKey(resource: string, namespace: string)

  /** The declared objects one connection is responsible for: row indices by object name. */
  datatype Group = Group(key: GroupKey, names: map<string, seq<nat>>)

  /** The namespace an object lives in: its own, the binding's, or none for a cluster-wide kind. */
  function ResolvedNamespace(m: Mapping, declared: Object, fallback: string): string
    requires m.Served?
  {
    if !m.namespaced then ""
    else if declared.namespace == "" then fallback
    else declared.namespace
  }

  function KeyOf(mapper: Mapper, declared: Object, fallback: string): Option<GroupKey> {
    var m := mapper(declared.apiVersion, declared.kind);
    if m.Served? then Some(GroupKey(m.resource, ResolvedNamespace(m, declared, fallback))) else None
  }

  function RowOf(mapper: Mapper, declared: Object, fallback: string): Status {
    var m := mapper(declared.apiVersion, declared.kind);
    if m.Served?
    then Status(declared.apiVersion, declared.kind, ResolvedNamespace(m, declared, fallback),
                declared.name, declared.file, NotFound, "")
    else Status(declared.apiVersion, declared.kind, declared.namespace,
                declared.name, declared.file, Unknown, m.reason)
  }

  /** The rows a group of this key holds under this name, in declaration order. */
  function IndicesFor(mapper: Mapper, objects: seq<Object>, fallback: string, key: GroupKey, name: string): (r: seq<nat>)
    ensures forall i :: i in r <==> 0 <= i < |objects| && objects[i].name == name && KeyOf(mapper, objects[i], fallback) == Some(key)
    ensures forall j, k | 0 <= j < k < |r| :: r[j] < r[k]
  {
    if objects == [] then [] else
    var n := |objects| - 1;
    var front := IndicesFor(mapper, objects[..n], fallback, key, name);
    assert forall j | 0 <= j < |front| :: front[j] in front;
    assert forall i | 0 <= i < n :: objects[..n][i] == objects[i];
    if objects[n].name == name && KeyOf(mapper, objects[n], fallback) == Some(key) then front + [n] else front
  }

  lemma IndicesSnoc(mapper: Mapper, objects: seq<Object>, o: Object, fallback: string, key: GroupKey, name: string)
    ensures IndicesFor(mapper, objects + [o], fallback, key, name) ==
            IndicesFor(mapper, objects, fallback, key, name) +
            (if o.name == name && KeyOf(mapper, o, fallback) == Some(key) then [|objects|] else [])
  {
    assert (objects + [o])[..|objects|] == objects;
  }

  function IndicesIn(groups: map<GroupKey, Group>, key: GroupKey, name: string): seq<nat> {
    if key in groups && name in groups[key].names then groups[key].names[name] else []
  }

  /** The groups of a plan: under each key and name exactly the rows that resolve to it, and no empty entries. */
  ghost predicate Owns(mapper: Mapper, objects: seq<Object>, fallback: string, groups: map<GroupKey, Group>) {
    && (forall key | key in groups :: groups[key].key == key)
    && (forall key, name | key in groups && name in groups[key].names :: groups[key].names[name] != [])
    && (forall key, name :: IndicesIn(groups, key, name) == IndicesFor(mapper, objects, fallback, key, name))
  }

  /** Adds a row to the group it resolves to, creating the group if it is the first. */
  function Enlist(groups: map<GroupKey, Group>, key: GroupKey, name: string, index: nat): map<GroupKey, Group> {
    var owner := if key in groups then groups[key] else Group(key, map[]);
    var indices := if name in owner.names then owner.names[name] else [];
    groups[key := owner.(names := owner.names[name := indices + [index]])]
  }

  lemma EnlistOwns(mapper: Mapper, objects: seq<Object>, o: Object, fallback: string, groups: map<GroupKey, Group>, key: GroupKey)
    requires Owns(mapper, objects, fallback, groups) && KeyOf(mapper, o, fallback) == Some(key)
    ensures Owns(mapper, objects + [o], fallback, Enlist(groups, key, o.name, |objects|))
  {
    var after := Enlist(groups, key, o.name, |objects|);
    forall k, name
      ensures IndicesIn(after, k, name) == IndicesFor(mapper, objects + [o], fallback, k, name)
    {
      IndicesSnoc(mapper, objects, o, fallback, k, name);
      assert IndicesIn(groups, k, name) == IndicesFor(mapper, objects, fallback, k, name);
    }
  }

  lemma SkipOwns(mapper: Mapper, objects: seq<Object>, o: Object, fallback: string, groups: map<GroupKey, Group>)
    requires Owns(mapper, objects, fallback, groups) && KeyOf(mapper, o, fallback) == None
    ensures Owns(mapper, objects + [o], fallback, groups)
  {
    forall k, name
      ensures IndicesIn(groups, k, name) == IndicesFor(mapper, objects + [o], fallback, k, name)
    {
      IndicesSnoc(mapper, objects, o, fallback, k, name);
    }
  }

  /** The groups of a plan: each served object enlisted, in declaration order. */
  function Planned(mapper: Mapper, objects: seq<Object>, fallback: string): map<GroupKey, Group> {
    if objects == [] then map[] else
    var groups, o := Planned(mapper, objects[..|objects| - 1], fallback), objects[|objects| - 1];
    match KeyOf(mapper, o, fallback)
    case None => groups
    case Some(key) => Enlist(groups, key, o.name, |objects| - 1)
  }

  lemma {:induction false} PlannedOwns(mapper: Mapper, objects: seq<Object>, fallback: string)
    ensures Owns(mapper, objects, fallback, Planned(mapper, objects, fallback))
  {
    if objects != [] {
      var front, o := objects[..|objects| - 1], objects[|objects| - 1];
      assert objects == front + [o];
      PlannedOwns(mapper, front, fallback);
      match KeyOf(mapper, o, fallback)
      case None => SkipOwns(mapper, front, o, fallback, Planned(mapper, front, fallback));
      case Some(key) => EnlistOwns(mapper, front, o, fallback, Planned(mapper, front, fallback), key);
    }
  }

  /** The keys of a plan's groups, each once. */
  function Keys(mapper: Mapper, objects: seq<Object>, fallback: string): seq<GroupKey> {
    if objects == [] then [] else
    var keys, key := Keys(mapper, objects[..|objects| - 1], fallback), KeyOf(mapper, objects[|objects| - 1], fallback);
    if key.None? || key.value in keys then keys else keys + [key.value]
  }

  lemma {:induction false} KeysArePlanned(mapper: Mapper, objects: seq<Object>, fallback: string)
    ensures forall key :: key in Keys(mapper, objects, fallback) <==> key in Planned(mapper, objects, fallback)
    ensures forall i, j | 0 <= i < j < |Keys(mapper, objects, fallback)| ::
              Keys(mapper, objects, fallback)[i] != Keys(mapper, objects, fallback)[j]
  {
    if objects != [] {
      KeysArePlanned(mapper, objects[..|objects| - 1], fallback);
    }
  }

  /** Every row a group of a plan holds is a row of the plan, of an object of that name that
      resolves to that group. */
  lemma RowsOfGroup(mapper: Mapper, objects: seq<Object>, fallback: string, key: GroupKey, name: string, j: nat)
    requires key in Planned(mapper, objects, fallback) && name in Planned(mapper, objects, fallback)[key].names
    requires j < |Planned(mapper, objects, fallback)[key].names[name]|
    ensures var i := Planned(mapper, objects, fallback)[key].names[name][j];
            i < |objects| && objects[i].name == name && KeyOf(mapper, objects[i], fallback) == Some(key)
  {
    var groups := Planned(mapper, objects, fallback);
    PlannedOwns(mapper, objects, fallback);
    assert IndicesIn(groups, key, name) == IndicesFor(mapper, objects, fallback, key, name);
    assert groups[key].names[name][j] in IndicesFor(mapper, objects, fallback, key, name);
  }

  /** `plan`: one row an object, in declaration order, and the groups that answer for them. */
  method MakePlan(mapper: Mapper, objects: seq<Object>, fallback: string)
    returns (order: seq<Status>, groups: map<GroupKey, Group>)
    ensures |order| == |objects| && forall i | 0 <= i < |order| :: order[i] == RowOf(mapper, objects[i], fallback)
    ensures Owns(mapper, objects, fallback, groups) && groups == Planned(mapper, objects, fallback)
  {
    order, groups := [], map[];
    for n := 0 to |objects|
      invariant |order| == n && forall i | 0 <= i < n :: order[i] == RowOf(mapper, objects[i], fallback)
      invariant groups == Planned(mapper, objects[..n], fallback)
    {
      var declared := objects[n];
      assert objects[..n + 1][..n] == objects[..n];
      match mapper(declared.apiVersion, declared.kind)
      case NotServed(reason) =>
        order := order + [Status(declared.apiVersion, declared.kind, declared.namespace,
                                 declared.name, declared.file, Unknown, reason)];
      case Served(resource, namespaced) =>
        var namespace := "";
        if namespaced {
          namespace := declared.namespace;
          if namespace == "" { namespace := fallback; }
        }
        var index := |order|;
        order := order + [Status(declared.apiVersion, declared.kind, namespace,
                                 declared.name, declared.file, NotFound, "")];
        var key := GroupKey(resource, namespace);
        groups := Enlist(groups, key, declared.name, index);
    }
    assert objects[..|objects|] == objects;
    PlannedOwns(mapper, objects, fallback);
  }

  /** Place `j` of this name in this group is row `i`. */
  ghost predicate IsAt(groups: map<GroupKey, Group>, key: GroupKey, name: string, j: nat, i: nat) {
    j < |IndicesIn(groups, key, name)| && IndicesIn(groups, key, name)[j] == i
  }

  /** An object of a kind that is not served has a row that says so and is in no group. Any other is
      not found yet, lives in no namespace if its kind has none, in its own if it declares one and in
      the binding's otherwise, and is in exactly one place of exactly one group, filed under its own
      name, in the group of its resource and that namespace. */
  lemma RowsHaveOneOwner(mapper: Mapper, objects: seq<Object>, fallback: string, groups: map<GroupKey, Group>, i: nat)
    requires Owns(mapper, objects, fallback, groups) && i < |objects|
    ensures var o := objects[i]; var row := RowOf(mapper, o, fallback);
            match mapper(o.apiVersion, o.kind)
            case NotServed(reason) =>
              && row == Status(o.apiVersion, o.kind, o.namespace, o.name, o.file, Unknown, reason)
              && forall key, name, j :: !IsAt(groups, key, name, j, i)
            case Served(resource, namespaced) =>
              var namespace := if namespaced && o.namespace != "" then o.namespace else if namespaced then fallback else "";
              var own := GroupKey(resource, namespace);
              && row == Status(o.apiVersion, o.kind, namespace, o.name, o.file, NotFound, "")
              && (exists j :: IsAt(groups, own, o.name, j, i))
              && (forall key, name, j, j' | IsAt(groups, key, name, j, i) && IsAt(groups, own, o.name, j', i) ::
                    key == own && name == o.name && j == j')
  {
    forall key, name, j | IsAt(groups, key, name, j, i)
      ensures KeyOf(mapper, objects[i], fallback) == Some(key) && objects[i].name == name
    {
      assert i in IndicesFor(mapper, objects, fallback, key, name);
    }
    match KeyOf(mapper, objects[i], fallback)
    case None =>
    case Some(own) =>
      var name := objects[i].name;
      assert i in IndicesIn(groups, own, name);
      var j :| 0 <= j < |IndicesIn(groups, own, name)| && IndicesIn(groups, own, name)[j] == i;
      assert IsAt(groups, own, name, j, i);
  }

  /** Every index a group holds is one of the plan's rows. */
  lemma IndicesInRange(mapper: Mapper, objects: seq<Object>, fallback: string, groups: map<GroupKey, Group>, key: GroupKey, name: string)
    requires Owns(mapper, objects, fallback, groups)
    ensures forall i | i in IndicesIn(groups, key, name) :: i < |objects|
  {
    assert IndicesIn(groups, key, name) == IndicesFor(mapper, objects, fallback, key, name);
  }
}
