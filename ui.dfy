/**
 * What the host UI supplies to the engine and what the engine asks of
 * it, as plain values.
 */
module Ui {
  /** A pane tab as `hou.ui.paneTabs()` reports it, with the path of its `pwd()`. */
  datatype PaneTab = PaneTab(
    name: string,
    isCurrentTab: bool,
    isNetworkEditor: bool,
    isUnderCursor: bool,
    pwd: string)

  /** `desktops_dict[desktop].setAsCurrent()` followed by `resetPath(pane, path)`. */
  datatype Switch = Switch(desktop: string, pane: string, path: string)

  /** `pane.cd(path)` on the pane tab at position `tab` of `hou.ui.paneTabs()`. */
  datatype Cd = Cd(tab: nat, path: string)
}
