/**
 * The workspace collection (src/workspaces.rs).
 *
 * A collection is the selected workspace's id plus the workspaces themselves.
 * The source revisions disagree on whether the workspaces are a `Vec` or a
 * uuid-keyed map; here they are a sequence whose uuids are pairwise distinct
 * (`UniqueKeys`), so that "the first workspace" used by the repair step is
 * deterministic, while `Find`, `Insert` and `Remove` give the map operations
 * (`get`, `insert`, `remove`) the callers use.
 */
module WorkspaceStore {
  import opened Wrappers
  import opened Uuids

  datatype Workspace = Workspace(uuid: Uuid, name: string, repoPaths: seq<string>)

  /** The persisted document's content: selected id and workspaces. */
  datatype StoredWorkspaces = StoredWorkspaces(currentWorkspace: Uuid, workspaces: seq<Workspace>)

  /** `Workspace::new`: a named workspace with no repositories yet. */
  function NewWorkspace(name: string, uuid: Uuid): (w: Workspace)
    ensures w.uuid == uuid && w.name == name && w.repoPaths == []
  {
    Workspace(uuid, name, [])
  }

  /** The set of uuids under which the collection holds a workspace. */
  function Keys(ws: seq<Workspace>): (k: set<Uuid>)
    ensures forall i :: 0 <= i < |ws| ==> ws[i].uuid in k
  {
    if ws == [] then {} else {ws[0].uuid} + Keys(ws[1..])
  }

  /** Every key is the uuid of some workspace of the collection. */
  lemma {:induction false} KeyHasIndex(ws: seq<Workspace>, id: Uuid) returns (i: nat)
    requires id in Keys(ws)
    ensures i < |ws| && ws[i].uuid == id
  {
    if ws[0].uuid == id {
      i := 0;
    } else {
      var j := KeyHasIndex(ws[1..], id);
      i := j + 1;
    }
  }

  /** No two workspaces share a uuid: the collection is a map keyed by uuid. */
  predicate UniqueKeys(ws: seq<Workspace>) {
    ws == [] || (ws[0].uuid !in Keys(ws[1..]) && UniqueKeys(ws[1..]))
  }

  /**
   * Lookup by uuid: the first workspace carrying `id` (`iter().find`); with
   * unique keys, the one workspace carrying it (`FindMember`).
   */
  function Find(ws: seq<Workspace>, id: Uuid): (r: Option<Workspace>)
    ensures r.Some? <==> id in Keys(ws)
    ensures r.Some? ==> r.value.uuid == id && r.value in ws
  {
    if ws == [] then None
    else if ws[0].uuid == id then Some(ws[0])
    else Find(ws[1..], id)
  }

  /** With unique keys, looking up a workspace's own uuid finds that very workspace. */
  lemma {:induction false} FindMember(ws: seq<Workspace>, i: nat)
    requires UniqueKeys(ws) && i < |ws|
    ensures Find(ws, ws[i].uuid) == Some(ws[i])
  {
    if i > 0 {
      assert ws[i] == ws[1..][i - 1];
      FindMember(ws[1..], i - 1);
    }
  }

  /** Lookup in a collection with `x` in front of `rest`. */
  lemma FindCons(x: Workspace, rest: seq<Workspace>)
    ensures forall id :: Find([x] + rest, id) == if x.uuid == id then Some(x) else Find(rest, id)
  {
  }

  /** Keys of a collection with `x` in front of `rest`. */
  lemma KeysCons(x: Workspace, rest: seq<Workspace>)
    ensures Keys([x] + rest) == {x.uuid} + Keys(rest)
  {
  }

  /** Key uniqueness of a collection with `x` in front of `rest`. */
  lemma UniqueCons(x: Workspace, rest: seq<Workspace>)
    ensures UniqueKeys([x] + rest) <==> x.uuid !in Keys(rest) && UniqueKeys(rest)
  {
  }

  /**
   * Map insertion: replaces the workspace stored under `w.uuid` in place,
   * or appends `w` when that key is absent. Only the key `w.uuid` changes.
   */
  function Insert(ws: seq<Workspace>, w: Workspace): (r: seq<Workspace>)
    ensures Find(r, w.uuid) == Some(w)
    ensures forall id :: id != w.uuid ==> Find(r, id) == Find(ws, id)
    ensures Keys(r) == Keys(ws) + {w.uuid}
    ensures |r| == if w.uuid in Keys(ws) then |ws| else |ws| + 1
    ensures w.uuid !in Keys(ws) ==> r == ws + [w]
    ensures UniqueKeys(ws) ==> UniqueKeys(r)
  {
    if ws == [] then
      FindCons(w, []);
      KeysCons(w, []);
      UniqueCons(w, []);
      [w]
    else
      var x, tail := ws[0], ws[1..];
      assert ws == [x] + tail;
      FindCons(x, tail);
      KeysCons(x, tail);
      UniqueCons(x, tail);
      if x.uuid == w.uuid then
        FindCons(w, tail);
        KeysCons(w, tail);
        UniqueCons(w, tail);
        [w] + tail
      else
        var rest := Insert(tail, w);
        FindCons(x, rest);
        KeysCons(x, rest);
        UniqueCons(x, rest);
        assert w.uuid !in Keys(tail) ==> [x] + rest == [x] + (tail + [w]) == ws + [w];
        [x] + rest
  }

  /**
   * Inserting under a key already held replaces that workspace where it
   * stands; every other workspace keeps its place.
   */
  lemma {:induction false} InsertInPlace(ws: seq<Workspace>, w: Workspace)
    requires UniqueKeys(ws) && w.uuid in Keys(ws)
    ensures |Insert(ws, w)| == |ws|
    ensures forall i :: 0 <= i < |ws| ==> Insert(ws, w)[i] == (if ws[i].uuid == w.uuid then w else ws[i])
  {
    var x, tail := ws[0], ws[1..];
    if x.uuid != w.uuid {
      InsertInPlace(tail, w);
      assert Insert(ws, w) == [x] + Insert(tail, w);
    }
  }

  /** Map removal: drops the workspace stored under `id`; every other key keeps its workspace. */
  function Remove(ws: seq<Workspace>, id: Uuid): (r: seq<Workspace>)
    ensures Keys(r) == Keys(ws) - {id}
    ensures forall k :: k != id ==> Find(r, k) == Find(ws, k)
    ensures id !in Keys(ws) ==> r == ws
    ensures UniqueKeys(ws) && id in Keys(ws) ==> |r| == |ws| - 1
    ensures UniqueKeys(ws) ==> UniqueKeys(r)
  {
    if ws == [] then []
    else
      var x, tail := ws[0], ws[1..];
      assert ws == [x] + tail;
      FindCons(x, tail);
      KeysCons(x, tail);
      UniqueCons(x, tail);
      var rest := Remove(tail, id);
      FindCons(x, rest);
      KeysCons(x, rest);
      UniqueCons(x, rest);
      if x.uuid == id then rest else [x] + rest
  }

  /**
   * With unique keys, removing a key held by the collection cuts out the one
   * workspace under it; the others keep their order.
   */
  lemma {:induction false} RemoveKeepsOrder(ws: seq<Workspace>, id: Uuid) returns (k: nat)
    requires UniqueKeys(ws) && id in Keys(ws)
    ensures k < |ws| && ws[k].uuid == id
    ensures Remove(ws, id) == ws[..k] + ws[k + 1..]
  {
    var x, tail := ws[0], ws[1..];
    if x.uuid == id {
      k := 0;
      assert Remove(tail, id) == tail;
    } else {
      var j := RemoveKeepsOrder(tail, id);
      k := j + 1;
      assert Remove(ws, id) == [x] + Remove(tail, id);
      assert ws[..k] == [x] + tail[..j];
      assert ws[k + 1..] == tail[j + 1..];
    }
  }

  /**
   * The selection `force_valid_workspace` leaves: unchanged when it already
   * resolves or the collection is empty, otherwise the first workspace's uuid.
   */
  function RepairSelection(ws: seq<Workspace>, current: Uuid): (r: Uuid)
    ensures ws != [] ==> r in Keys(ws)
    ensures ws == [] ==> r == current
    ensures current in Keys(ws) ==> r == current
    ensures r != current ==> r == ws[0].uuid
  {
    if ws != [] && Find(ws, current).None? then ws[0].uuid else current
  }

  /** Repairing twice is repairing once. */
  lemma RepairSelectionIdempotent(ws: seq<Workspace>, current: Uuid)
    ensures RepairSelection(ws, RepairSelection(ws, current)) == RepairSelection(ws, current)
  {
  }

  /** `Workspaces`: the selected workspace's id and the workspaces, updated in place. */
  class Workspaces {
    var currentWorkspace: Uuid
    var workspaces: seq<Workspace>

    /** The source's map type keeps one workspace per uuid. */
    ghost predicate Valid()
      reads this
    {
      UniqueKeys(workspaces)
    }

    /** `Workspaces::default()`: nothing selected, no workspaces. */
    constructor ()
      ensures Valid()
      ensures currentWorkspace == NIL && workspaces == []
    {
      currentWorkspace := NIL;
      workspaces := [];
    }

    /** A collection as read back from the stored document. */
    constructor FromStored(stored: StoredWorkspaces)
      requires UniqueKeys(stored.workspaces)
      ensures Valid()
      ensures currentWorkspace == stored.currentWorkspace && workspaces == stored.workspaces
    {
      currentWorkspace := stored.currentWorkspace;
      workspaces := stored.workspaces;
    }

    /** `current_workspace`: the workspace whose uuid is the selected id, if any. */
    function CurrentWorkspace(): (r: Option<Workspace>)
      reads this
      ensures r.Some? <==> currentWorkspace in Keys(workspaces)
      ensures r.Some? ==> r.value.uuid == currentWorkspace && r.value in workspaces
    {
      Find(workspaces, currentWorkspace)
    }

    /**
     * `force_valid_workspace`: when there are workspaces but the selection
     * does not resolve, select the first one. The workspaces are untouched.
     */
    method ForceValidWorkspace()
      modifies this
      ensures workspaces == old(workspaces)
      ensures currentWorkspace == RepairSelection(old(workspaces), old(currentWorkspace))
      ensures workspaces != [] ==> CurrentWorkspace().Some?
      ensures old(CurrentWorkspace()).Some? ==> currentWorkspace == old(currentWorkspace)
    {
      if workspaces != [] && CurrentWorkspace().None? {
        currentWorkspace := workspaces[0].uuid;
      }
    }
  }
}
