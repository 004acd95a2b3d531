/**
 * Startup reconciliation (src/main.rs): find out which workspace the host
 * application last had open, merge its last session into the collection,
 * and pick the session to hand back to it. Session reads, the collection
 * document read and the ids drawn from `Uuid::new_v4` are inputs; logging,
 * closing and launching the host application are not modelled.
 */
module Startup {
  import opened Wrappers
  import opened Uuids
  import opened OpenTabsStore
  import opened WorkspaceStore
  import opened App

  const LAST_WORKSPACE_NAME: string := "Last Workspace"

  /**
   * `discover_last_workspace_id`: the id of the last session's workspace, or
   * None when the session could not be read or names the nil id. A session
   * without an id is given the freshly drawn `newId`.
   */
  function DiscoverLastWorkspaceId(read: Option<OpenTabs>, newId: Uuid): (r: Option<Uuid>)
    requires !IsNil(newId)
    ensures r.Some? ==> !IsNil(r.value)
    ensures r.None? <==> read.None? || read.value.workspaceId == Some(NIL)
    ensures read.Some? && read.value.workspaceId.Some? && r.Some? ==> r == read.value.workspaceId
    ensures read.Some? && read.value.workspaceId.None? ==> r == Some(newId)
  {
    if read.Some? then
      var lastWorkspace := WorkspaceFromOpenTabs(read.value, newId);
      if !IsNil(lastWorkspace.uuid) then Some(lastWorkspace.uuid) else None
    else None
  }

  /**
   * The workspaces after `update_last_workspace`. When the session read
   * fails nothing changes. Otherwise the session's tabs are stored under one
   * key: under `lastId` with that workspace's name kept when `lastId` is
   * already a key, else under the session's own id (or `newId` when it has
   * none) with the name "Last Workspace". No other key changes.
   */
  function ReconciledWorkspaces(ws: seq<Workspace>, read: Option<OpenTabs>, lastId: Uuid, newId: Uuid): (r: seq<Workspace>)
    requires !IsNil(newId)
    ensures read.None? ==> r == ws
    ensures read.Some? && lastId in Keys(ws) ==>
      && Find(r, lastId) == Some(Workspace(lastId, Find(ws, lastId).value.name, read.value.tabs))
      && (forall id :: id != lastId ==> Find(r, id) == Find(ws, id))
      && Keys(r) == Keys(ws)
    ensures read.Some? && lastId !in Keys(ws) ==>
      var key := if read.value.workspaceId.Some? then read.value.workspaceId.value else newId;
      && Find(r, key) == Some(Workspace(key, LAST_WORKSPACE_NAME, read.value.tabs))
      && (forall id :: id != key ==> Find(r, id) == Find(ws, id))
      && Keys(r) == Keys(ws) + {key}
      && (key !in Keys(ws) ==> r == ws + [Workspace(key, LAST_WORKSPACE_NAME, read.value.tabs)])
    ensures |r| <= |ws| + 1
    ensures UniqueKeys(ws) ==> UniqueKeys(r)
  {
    match read
    case None => ws
    case Some(openTabs) =>
      var lastWorkspace := WorkspaceFromOpenTabs(openTabs, newId);
      var merged :=
        if lastId in Keys(ws) then lastWorkspace.(uuid := lastId, name := Find(ws, lastId).value.name)
        else lastWorkspace.(name := LAST_WORKSPACE_NAME);
      Insert(ws, merged)
  }

  /**
   * `update_last_workspace`: merges the session read back into the
   * collection in place. The selection is left as it was.
   */
  method UpdateLastWorkspace(workspaces: Workspaces, read: Option<OpenTabs>, lastId: Uuid, newId: Uuid)
    requires workspaces.Valid()
    requires !IsNil(newId)
    modifies workspaces
    ensures workspaces.Valid()
    ensures workspaces.workspaces == ReconciledWorkspaces(old(workspaces.workspaces), read, lastId, newId)
    ensures workspaces.currentWorkspace == old(workspaces.currentWorkspace)
  {
    if read.Some? {
      var lastWorkspace := WorkspaceFromOpenTabs(read.value, newId);
      if lastId in Keys(workspaces.workspaces) {
        lastWorkspace := lastWorkspace.(uuid := lastId, name := Find(workspaces.workspaces, lastId).value.name);
      } else {
        lastWorkspace := lastWorkspace.(name := LAST_WORKSPACE_NAME);
      }
      workspaces.workspaces := Insert(workspaces.workspaces, lastWorkspace);
    }
  }

  /** `Workspaces::read().unwrap_or_default()`: the stored collection, or an empty one. */
  function LoadedOrDefault(loaded: Option<StoredWorkspaces>): (s: StoredWorkspaces)
    ensures loaded.None? ==> s.currentWorkspace == NIL && s.workspaces == []
    ensures loaded.Some? ==> s == loaded.value
  {
    if loaded.Some? then loaded.value else StoredWorkspaces(NIL, [])
  }

  /**
   * `get_workspaces`: the loaded (or empty) collection with its selection
   * repaired, so a non-empty result has a selection that resolves.
   */
  method GetWorkspaces(loaded: Option<StoredWorkspaces>) returns (w: Workspaces)
    requires loaded.Some? ==> UniqueKeys(loaded.value.workspaces)
    ensures fresh(w) && w.Valid()
    ensures w.workspaces == LoadedOrDefault(loaded).workspaces
    ensures w.currentWorkspace == RepairSelection(w.workspaces, LoadedOrDefault(loaded).currentWorkspace)
    ensures w.workspaces != [] ==> w.CurrentWorkspace().Some?
  {
    if loaded.Some? {
      w := new Workspaces.FromStored(loaded.value);
    } else {
      w := new Workspaces();
    }
    w.ForceValidWorkspace();
  }

  /**
   * The session `save_open_tabs` writes: none when the selection does not
   * resolve, otherwise the selected workspace's paths tagged with its uuid.
   */
  function OpenTabsToSave(ws: seq<Workspace>, current: Uuid): (r: Option<OpenTabs>)
    ensures r.None? <==> current !in Keys(ws)
    ensures r.Some? ==> r.value.workspaceId == Some(current)
    ensures r.Some? ==> exists w :: w in ws && w.uuid == current && r.value.tabs == w.repoPaths
  {
    match Find(ws, current)
    case None => None
    case Some(w) => Some(OpenTabsFromWorkspace(w))
  }

  /** With unique keys the session written carries exactly the selected workspace's paths. */
  lemma OpenTabsToSaveOfSelected(ws: seq<Workspace>, i: nat)
    requires UniqueKeys(ws) && i < |ws|
    ensures OpenTabsToSave(ws, ws[i].uuid) == Some(OpenTabs(ws[i].repoPaths, Some(ws[i].uuid)))
  {
    FindMember(ws, i);
  }

  /**
   * `main` without logging, closing and launching the host application:
   * discover the last id from the first session read, load and repair the
   * collection, and when an id was found merge the second session read and
   * pick the session to write back.
   */
  method Run(discoverRead: Option<OpenTabs>, loaded: Option<StoredWorkspaces>, updateRead: Option<OpenTabs>,
             discoverId: Uuid, updateId: Uuid)
    returns (w: Workspaces, written: Option<OpenTabs>)
    requires !IsNil(discoverId) && !IsNil(updateId)
    requires loaded.Some? ==> UniqueKeys(loaded.value.workspaces)
    ensures fresh(w) && w.Valid()
    ensures w.currentWorkspace == RepairSelection(LoadedOrDefault(loaded).workspaces, LoadedOrDefault(loaded).currentWorkspace)
    ensures DiscoverLastWorkspaceId(discoverRead, discoverId).None? ==>
      w.workspaces == LoadedOrDefault(loaded).workspaces && written == None
    ensures DiscoverLastWorkspaceId(discoverRead, discoverId).Some? ==>
      && w.workspaces == ReconciledWorkspaces(LoadedOrDefault(loaded).workspaces, updateRead,
                                              DiscoverLastWorkspaceId(discoverRead, discoverId).value, updateId)
      && written == OpenTabsToSave(w.workspaces, w.currentWorkspace)
  {
    var lastWorkspaceId := DiscoverLastWorkspaceId(discoverRead, discoverId);
    w := GetWorkspaces(loaded);
    written := None;
    if lastWorkspaceId.Some? {
      UpdateLastWorkspace(w, updateRead, lastWorkspaceId.value, updateId);
      written := OpenTabsToSave(w.workspaces, w.currentWorkspace);
    }
  }

  /**
   * When both session reads agree, the session's tabs end up in exactly one
   * workspace: the one under the session's id, or under the fresh id when
   * the session carried none.
   */
  lemma {:induction false} SessionRepresentedOnce(ws: seq<Workspace>, openTabs: OpenTabs, discoverId: Uuid, updateId: Uuid)
    requires UniqueKeys(ws)
    requires !IsNil(discoverId) && !IsNil(updateId)
    requires discoverId !in Keys(ws)
    requires DiscoverLastWorkspaceId(Some(openTabs), discoverId).Some?
    ensures var key := if openTabs.workspaceId.Some? then openTabs.workspaceId.value else updateId;
            var r := ReconciledWorkspaces(ws, Some(openTabs), DiscoverLastWorkspaceId(Some(openTabs), discoverId).value, updateId);
            && UniqueKeys(r)
            && Find(r, key).Some? && Find(r, key).value.repoPaths == openTabs.tabs
            && (forall id :: id != key ==> Find(r, id) == Find(ws, id))
  {
  }

  /**
   * Startup does not repair the selection after merging: starting with no
   * stored collection, a session for a workspace that is not stored becomes
   * the only workspace, yet the nil selection does not resolve to it and no
   * session is written back.
   */
  lemma SelectionLeftUnrepairedAfterMerge(tabs: seq<string>, y: Uuid, discoverId: Uuid, updateId: Uuid)
    requires !IsNil(y) && !IsNil(discoverId) && !IsNil(updateId)
    ensures var session := Some(OpenTabs(tabs, Some(y)));
            var start := LoadedOrDefault(None);
            var lastId := DiscoverLastWorkspaceId(session, discoverId);
            var r := ReconciledWorkspaces(start.workspaces, session, lastId.value, updateId);
            var current := RepairSelection(start.workspaces, start.currentWorkspace);
            && lastId == Some(y)
            && r == [Workspace(y, LAST_WORKSPACE_NAME, tabs)]
            && current == NIL
            && current !in Keys(r)
            && OpenTabsToSave(r, current) == None
  {
  }

  /**
   * A stored workspace named "Foo" with paths [A, B] whose id the session
   * carries with tabs [C, D] keeps its name and takes the new paths.
   */
  lemma MatchKeepsName(x: Uuid, a: string, b: string, c: string, d: string, discoverId: Uuid, updateId: Uuid)
    requires !IsNil(x) && !IsNil(discoverId) && !IsNil(updateId)
    ensures var ws := [Workspace(x, "Foo", [a, b])];
            var session := Some(OpenTabs([c, d], Some(x)));
            var lastId := DiscoverLastWorkspaceId(session, discoverId);
            lastId == Some(x) && ReconciledWorkspaces(ws, session, lastId.value, updateId) == [Workspace(x, "Foo", [c, d])]
  {
  }

  /**
   * The two session reads may disagree. When the first names a workspace
   * that is not stored and the second names the nil id, the merged
   * "Last Workspace" is stored under the nil uuid.
   */
  lemma LastWorkspaceStoredUnderNil(ws: seq<Workspace>, y: Uuid, tabs1: seq<string>, tabs2: seq<string>,
                                    discoverId: Uuid, updateId: Uuid)
    requires !IsNil(y) && y !in Keys(ws)
    requires !IsNil(discoverId) && !IsNil(updateId)
    ensures var lastId := DiscoverLastWorkspaceId(Some(OpenTabs(tabs1, Some(y))), discoverId);
            var r := ReconciledWorkspaces(ws, Some(OpenTabs(tabs2, Some(NIL))), lastId.value, updateId);
            && lastId == Some(y)
            && Find(r, NIL) == Some(Workspace(NIL, LAST_WORKSPACE_NAME, tabs2))
  {
  }
}
