/**
 * The application's workspace logic (src/app.rs): the conversions between a
 * workspace and an open-tabs session, and the user actions that change the
 * collection. Rendering, status messages and writes to disk are not modelled;
 * identifiers the source draws from `Uuid::new_v4` are parameters.
 */
module App {
  import opened Wrappers
  import opened Uuids
  import opened OpenTabsStore
  import opened WorkspaceStore

  const NEW_WORKSPACE_NAME: string := "New Workspace"

  /**
   * `From<&OpenTabs> for Workspace`: the session's tabs under the session's
   * workspace id, or under the freshly drawn `newId` when it carries none.
   */
  function WorkspaceFromOpenTabs(openTabs: OpenTabs, newId: Uuid): (w: Workspace)
    requires !IsNil(newId)
    ensures w.name == NEW_WORKSPACE_NAME
    ensures w.repoPaths == openTabs.tabs
    ensures openTabs.workspaceId.Some? ==> w.uuid == openTabs.workspaceId.value
    ensures openTabs.workspaceId.None? ==> w.uuid == newId
  {
    var uuid := if openTabs.workspaceId.Some? then openTabs.workspaceId.value else newId;
    Workspace(uuid, NEW_WORKSPACE_NAME, openTabs.tabs)
  }

  /** `From<&Workspace> for OpenTabs`: the workspace's paths, tagged with its uuid. */
  function OpenTabsFromWorkspace(w: Workspace): (t: OpenTabs)
    ensures t.tabs == w.repoPaths
    ensures t.workspaceId == Some(w.uuid)
  {
    OpenTabs(w.repoPaths, Some(w.uuid))
  }

  /**
   * A workspace written out as a session and read back keeps its uuid and
   * paths, whatever fresh id is on hand; only its name becomes "New Workspace".
   */
  lemma WorkspaceRoundTrip(w: Workspace, newId: Uuid)
    requires !IsNil(newId)
    ensures WorkspaceFromOpenTabs(OpenTabsFromWorkspace(w), newId) == w.(name := NEW_WORKSPACE_NAME)
  {
  }

  /** A session that carries a workspace id survives the trip through a workspace unchanged. */
  lemma OpenTabsRoundTrip(t: OpenTabs, newId: Uuid)
    requires !IsNil(newId) && t.workspaceId.Some?
    ensures OpenTabsFromWorkspace(WorkspaceFromOpenTabs(t, newId)) == t
  {
  }

  /** `SourceTreeWorkspacesApp`: owns the collection the user actions change. */
  class SourceTreeWorkspacesApp {
    const workspaces: Workspaces

    /** `SourceTreeWorkspacesApp::new`: takes over the loaded collection. */
    constructor (workspaces: Workspaces)
      ensures this.workspaces == workspaces
    {
      this.workspaces := workspaces;
    }

    /**
     * `create_new_workspace`: appends an empty "New Workspace" under a fresh
     * uuid, then repairs the selection, which therefore resolves.
     */
    method CreateNewWorkspace(newId: Uuid)
      requires workspaces.Valid()
      requires !IsNil(newId) && newId !in Keys(workspaces.workspaces)
      modifies workspaces
      ensures workspaces.Valid()
      ensures workspaces.workspaces == old(workspaces.workspaces) + [NewWorkspace(NEW_WORKSPACE_NAME, newId)]
      ensures workspaces.currentWorkspace == RepairSelection(workspaces.workspaces, old(workspaces.currentWorkspace))
      ensures workspaces.CurrentWorkspace().Some?
    {
      var newWorkspace := NewWorkspace(NEW_WORKSPACE_NAME, newId);
      workspaces.workspaces := Insert(workspaces.workspaces, newWorkspace);
      workspaces.ForceValidWorkspace();
    }

    /**
     * `create_workspace_from_current_tabs`: turns the session just read into a
     * workspace, always under a fresh uuid (a session id is overridden), adds
     * it and repairs the selection. When the read failed (`ok` false) nothing
     * changes.
     */
    method CreateWorkspaceFromCurrentTabs(read: Option<OpenTabs>, newId: Uuid) returns (ok: bool)
      requires workspaces.Valid()
      requires !IsNil(newId) && newId !in Keys(workspaces.workspaces)
      modifies workspaces
      ensures workspaces.Valid()
      ensures ok <==> read.Some?
      ensures !ok ==> workspaces.workspaces == old(workspaces.workspaces)
      ensures !ok ==> workspaces.currentWorkspace == old(workspaces.currentWorkspace)
      ensures ok ==> workspaces.workspaces == old(workspaces.workspaces) + [Workspace(newId, NEW_WORKSPACE_NAME, read.value.tabs)]
      ensures ok ==> workspaces.currentWorkspace == RepairSelection(workspaces.workspaces, old(workspaces.currentWorkspace))
      ensures ok ==> workspaces.CurrentWorkspace().Some?
    {
      if read.None? {
        return false;
      }
      var newWorkspace := WorkspaceFromOpenTabs(read.value, newId).(uuid := newId);
      workspaces.workspaces := Insert(workspaces.workspaces, newWorkspace);
      workspaces.ForceValidWorkspace();
      return true;
    }

    /**
     * `remove_current_workspace`: drops the selected workspace and nothing
     * else. The selection is not repaired, so it no longer resolves.
     */
    method RemoveCurrentWorkspace()
      requires workspaces.Valid()
      modifies workspaces
      ensures workspaces.Valid()
      ensures workspaces.workspaces == Remove(old(workspaces.workspaces), old(workspaces.currentWorkspace))
      ensures workspaces.currentWorkspace == old(workspaces.currentWorkspace)
      ensures old(workspaces.CurrentWorkspace()).Some? ==> |workspaces.workspaces| == |old(workspaces.workspaces)| - 1
      ensures workspaces.CurrentWorkspace().None?
    {
      workspaces.workspaces := Remove(workspaces.workspaces, workspaces.currentWorkspace);
    }

    /** Clicking a workspace in the list selects it; the workspaces are untouched. */
    method SelectWorkspace(clicked: Workspace)
      requires workspaces.Valid()
      requires clicked in workspaces.workspaces
      modifies workspaces
      ensures workspaces.Valid()
      ensures workspaces.workspaces == old(workspaces.workspaces)
      ensures workspaces.currentWorkspace == clicked.uuid
      ensures workspaces.CurrentWorkspace() == Some(clicked)
    {
      workspaces.currentWorkspace := clicked.uuid;
      var i :| 0 <= i < |workspaces.workspaces| && workspaces.workspaces[i] == clicked;
      FindMember(workspaces.workspaces, i);
    }
  }
}
