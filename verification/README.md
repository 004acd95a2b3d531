# st-workspaces: workspace collection and session reconciliation

This project is a Dafny model of the core of st-workspaces. The tool keeps named workspaces, each a list of repository paths. It keeps them in step with the open-tabs session of the SourceTree application (the "host application").

The model covers four parts:

- **The workspace collection** (`workspaces.dfy`, module `WorkspaceStore`). It holds the id of the selected workspace and the workspaces themselves. It can look up the selected workspace and repair a selection that does not resolve.
- **The application's logic** (`app.dfy`, module `App`). This is the conversion between a workspace and an open-tabs session, in both directions. It also covers the user actions that change the collection: create new, create from the current tabs, remove the selected workspace, and select by click.
- **Startup** (`main.dfy`, module `Startup`). This finds the id of the last session, loads and repairs the collection, and merges the last session into it. It also decides which session is written back.
- **Exit-code classification** (`sourcetree_actions.dfy`, module `SourceTreeActions`). This maps the exit code of `taskkill` to closed, not running, or an error.

`uuids.dfy` gives the 128-bit identifier with its nil value. `open_tabs.dfy` gives the open-tabs record. `wrappers.dfy` gives `Option` and `Result`.

Modelling decisions:

- **The collection type.** The source disagrees with itself about it. `src/workspaces.rs` declares a `Vec<Workspace>` and repairs with `.first()`. `src/main.rs` and `src/app.rs` use a uuid-keyed map (`contains_key`, `insert`, `remove`). The model keeps a sequence whose uuids are pairwise distinct (`UniqueKeys`, the class invariant `Valid`). The map operations are pure functions on it:
  - `Find` is the lookup.
  - `Insert` replaces the entry under a key in place, or appends a new one.
  - `Remove` drops the entry under a key.
  - With this choice, "the first workspace" in the repair step is deterministic.
- **Workspaces is a class.** `Workspaces` is updated in place, so it is a class with those two fields. `SourceTreeWorkspacesApp` owns one. Workspaces and sessions are values.
- **Fresh uuids and I/O are inputs.**
  - Each uuid that the source draws from `Uuid::new_v4` is a parameter (`newId`, `discoverId`, `updateId`). Every member that takes one requires it to be non-nil, because a version-4 uuid never is: `App.WorkspaceFromOpenTabs`, `Startup.DiscoverLastWorkspaceId`, `Startup.ReconciledWorkspaces`, `Startup.UpdateLastWorkspace`, `Startup.Run` and the two create actions. The create actions also require it not to be a key already, because the source relies on it being new.
  - Each file read is an `Option` input: `None` stands for a failed read.
  - The session that `save_open_tabs` would write is a returned value.
- **Two session reads at startup.** `src/main.rs` reads the open-tabs file twice: once to discover the last id, and again inside `update_last_workspace`, after the host application has been closed. The model takes the two reads as separate inputs.

Behaviour a reader might expect otherwise, as the code has it:

- **No repair after the merge.** One might expect startup to repair the selection once the last session is merged. It does not: src/main.rs:28-34 never calls `force_valid_workspace` after `update_last_workspace`. So on a first run, the merged "Last Workspace" entry is the only workspace, but the selection is still nil, and no session is written back. `Startup.SelectionLeftUnrepairedAfterMerge` states this.
- **No repair after removal.** One might expect removing the selected workspace to select another. It does not: the call to `force_valid_workspace` in `remove_current_workspace` is commented out (src/app.rs:237). The selection then no longer resolves; `App.SourceTreeWorkspacesApp.RemoveCurrentWorkspace` states this.
- **Empty sessions are still merged.** One might expect a session with no tabs and no id to be skipped. It is not: it gets a fresh id and is merged as an empty "Last Workspace".
- **Which key the new entry gets.** One might expect a last id that is not a key to become the new entry's key. Instead the new entry is stored under the id of the second session read, and a fresh id is used only when that session has none.
- **A nil id in the second read.** The two session reads may disagree. When the first names an unknown workspace and the second names the nil id, the merged "Last Workspace" is stored under the nil uuid (src/main.rs:110-132). `Startup.LastWorkspaceStoredUnderNil` states this.
- **Which workspace the repair picks.** One might expect the repair to pick the first workspace by name. It picks the first workspace of the collection.

## Model

| member | source | states |
|---|---|---|
| WorkspaceStore.NewWorkspace | src/workspaces.rs:66-72 | `Workspace::new(name, id)` has exactly that name and uuid, and no repository paths |
| WorkspaceStore.Workspaces.constructor | src/workspaces.rs:9-13 | `Workspaces::default()` selects the nil id and holds no workspaces |
| WorkspaceStore.Workspaces.FromStored | src/workspaces.rs:47-54 | a collection read back from the document holds the stored selection and workspaces, one per uuid |
| WorkspaceStore.Keys | src/main.rs:112 | the key set holds the uuid of every workspace (`contains_key`) |
| WorkspaceStore.KeyHasIndex | src/main.rs:112 | every key is the uuid of some workspace in the collection |
| WorkspaceStore.Find | src/workspaces.rs:17-19 | the lookup finds something iff some workspace carries the id; what it finds carries that id and is a member |
| WorkspaceStore.FindMember | src/main.rs:119 | with unique keys, looking up a member's uuid yields exactly that member (map indexing) |
| WorkspaceStore.Insert | src/main.rs:130-132 | map insert: afterwards the key maps to the new workspace and every other key maps to what it did before; the keys grow by that one key; the length grows by one only when the key was new (then it is an append); uniqueness is kept |
| WorkspaceStore.InsertInPlace | src/main.rs:130-132 | with unique keys, inserting under a key already held replaces that one workspace in its position; every other workspace stays where it was |
| WorkspaceStore.Remove | src/app.rs:225-227 | map remove: the key is gone and every other key maps to what it did before; nothing changes when the key was absent; with unique keys exactly one entry goes; uniqueness is kept |
| WorkspaceStore.RemoveKeepsOrder | src/app.rs:225-227 | with unique keys, removing a held key cuts out exactly the workspace carrying it; the rest keep their order |
| WorkspaceStore.RepairSelection | src/workspaces.rs:24-28 | on a non-empty collection the repaired selection resolves to a member; an empty collection or a resolving selection is left as it is; any change is to the first workspace's uuid |
| WorkspaceStore.RepairSelectionIdempotent | src/workspaces.rs:25 | repairing twice gives the same selection as repairing once |
| WorkspaceStore.Workspaces.CurrentWorkspace | src/workspaces.rs:16-22 | `current_workspace` returns a workspace iff the selected id is a key, and that workspace carries the selected id and is a member |
| WorkspaceStore.Workspaces.ForceValidWorkspace | src/workspaces.rs:24-28 | `force_valid_workspace` never changes the workspaces; it sets the selection to the repaired one, so a non-empty collection's selection resolves afterwards; a selection that already resolved is kept |
| App.WorkspaceFromOpenTabs | src/app.rs:275-288 | a workspace made from a session is named "New Workspace", holds the session's tabs, and has the session's id if it carries one, else the freshly drawn id |
| App.OpenTabsFromWorkspace | src/app.rs:290-297 | the session made from a workspace holds its paths and carries its uuid |
| App.WorkspaceRoundTrip | src/app.rs:275-297 | workspace to session and back keeps the uuid and paths, and renames it "New Workspace" |
| App.OpenTabsRoundTrip | src/app.rs:275-297 | a session that carries an id comes back unchanged from the trip through a workspace |
| App.SourceTreeWorkspacesApp.constructor | src/app.rs:24-33 | the app takes over the collection it is given |
| App.SourceTreeWorkspacesApp.CreateNewWorkspace | src/app.rs:187-202 | exactly one empty "New Workspace" is appended under the fresh uuid; the other workspaces are unchanged; the selection is repaired and resolves |
| App.SourceTreeWorkspacesApp.CreateWorkspaceFromCurrentTabs | src/app.rs:204-221 | after a successful read, one "New Workspace" holding the session's tabs is appended under the fresh uuid, never the session's id; the selection is repaired and resolves; after a failed read nothing changes |
| App.SourceTreeWorkspacesApp.RemoveCurrentWorkspace | src/app.rs:223-238 | exactly the selected workspace is removed and no other; the selection is kept as it was and so no longer resolves |
| App.SourceTreeWorkspacesApp.SelectWorkspace | src/app.rs:81-93 | clicking a listed workspace selects its uuid, so the selection resolves to that very workspace; the workspaces are unchanged |
| Startup.DiscoverLastWorkspaceId | src/main.rs:39-48 | no id iff the session read failed or it names the nil id; a session's non-nil id is returned as is; a session without an id yields the freshly drawn id; a returned id is never nil |
| Startup.ReconciledWorkspaces | src/main.rs:93-136 | read failure: unchanged; last id already a key: that entry keeps its name and takes the session's tabs, the keys stay the same; otherwise a "Last Workspace" entry holding the tabs is stored under the session id (or the fresh id); in every case no other key changes, at most one entry is added and uniqueness is kept |
| Startup.UpdateLastWorkspace | src/main.rs:93-136 | `update_last_workspace` changes the workspaces to the reconciled ones and leaves the selection alone |
| Startup.LoadedOrDefault | src/main.rs:62 | a failed read of the document yields the empty collection with the nil selection; a successful one yields what was read |
| Startup.GetWorkspaces | src/main.rs:61-65 | `get_workspaces` yields the loaded (or empty) workspaces with the selection repaired, so a non-empty result has a resolving selection |
| Startup.OpenTabsToSave | src/main.rs:50-59 | nothing is written iff the selection does not resolve; otherwise the session carries the selected id and the paths of a workspace with that uuid |
| Startup.OpenTabsToSaveOfSelected | src/main.rs:50-59 | with unique keys, the session written is exactly the selected workspace's paths tagged with its uuid |
| Startup.Run | src/main.rs:16-37 | startup's selection is the repaired loaded one; without a last id the collection is as loaded and nothing is written; with one, the workspaces are the reconciled ones and the session written is the one `save_open_tabs` picks |
| Startup.SessionRepresentedOnce | src/main.rs:23-31 | when both session reads agree, the session's tabs end up in exactly one workspace, under the session's id or the fresh id, and no other key changes |
| Startup.SelectionLeftUnrepairedAfterMerge | src/main.rs:28-33 | on a first run, a session for an unknown id becomes the only workspace, but the nil selection is not repaired, so no session is written back |
| Startup.MatchKeepsName | src/main.rs:112-119 | a stored workspace "Foo" with paths [A, B] and a session [C, D] with its id becomes "Foo" with [C, D] |
| Startup.LastWorkspaceStoredUnderNil | src/main.rs:110-132 | when the first session read names an unknown workspace and the second names the nil id, the merged "Last Workspace" holding the second read's tabs is stored under the nil uuid |
| SourceTreeActions.ClassifyExitCode | src/sourcetree_actions.rs:14-19 | exit code 0 iff closed; 128 iff not running, which is not an error; any other code, or no code, is an error carrying the code; the mapping is total |

## Left out

- **File I/O and serialization.** This covers `Workspaces::read`, `write` and `path`, `OpenTabs::read`, `write` and `path`, and the serde JSON and XML code. Reads enter the model as `Option` inputs, and writes are not modelled.
- **The write inside the create actions.** `create_new_workspace` and `create_workspace_from_current_tabs` write the collection before they repair the selection. So the stored selection may lag behind. The model does not capture this.
- **Panic on a failed save at startup.** At startup `save_workspaces` panics when the write fails. The model does not capture this.
- App.SourceTreeWorkspacesApp.CreateWorkspaceFromCurrentTabs: the source unwraps the session read, so a failed read aborts the process. The model returns `false` and leaves the collection unchanged, because process abort is not modelled.
- **The stored document's keys.** The document is a map from uuid keys to workspaces that also carry their own uuid. The model takes the loaded workspaces as a sequence with unique uuids (`WorkspaceStore.Workspaces.FromStored`, `Startup.GetWorkspaces`). A hand-edited document whose keys disagree with the workspaces' uuids is not modelled.
- **Rendering and name editing.** The egui rendering is not modelled: the `update_*_panel` functions, `configure_text_styles` and `contrast_text`. Neither is the sort by name used for display (src/app.rs:76-78). Name editing through `current_workspace_mut` is not modelled either: src/workspaces.rs does not define that method.
- **Status messages.** They do not affect the collection.
- **`open_current_workspace`.** It writes files and spawns the host application.
- **Process control.** Running `taskkill`, a failed `command.output()`, the four-second wait after closing, logging and `eframe::run_native` are not modelled. They are process, timing and UI I/O. Only the exit-code mapping is modelled.
- **Settings-directory discovery.** src/paths.rs is not part of this model. It is operating-system directory lookup.
- **Randomness of `Uuid::new_v4`.** Fresh ids are parameters. Every member that takes one requires it to be non-nil; the two create actions also require it not to be a key already.
