/**
 * The host application's open-tabs session record (src/open_tabs.rs): the
 * ordered repository paths it had open, and the workspace it was launched
 * with, if it was told one.
 */
module OpenTabsStore {
  import opened Wrappers
  import opened Uuids

  datatype OpenTabs = OpenTabs(tabs: seq<string>, workspaceId: Option<Uuid>)
}
