/** The windows of the current workspace, picked out of the window listing by
    their offsets relative to the monitors of the grid. */
module WindowFocuser {
  import opened Seqs
  import opened Outcomes
  import opened Windows
  import opened WorkspaceGrids

  /** `in_workspace`: the horizontal offset lies within the monitor row and the
      vertical offset above the bottom of the monitor column; there is no lower
      bound on the vertical offset. */
  predicate InWorkspace(g: WorkspaceGrid, w: Window)
  {
    w.xOffset >= 0
    && w.xOffset < g.monitorWidth * g.monitorHorizontalCount
    && w.yOffset < g.monitorHeight * g.monitorVerticalCount
  }

  /** `_get_current_workspace_windows`: the windows in the current workspace,
      in listing order. */
  function CurrentWorkspaceWindows(g: WorkspaceGrid, windows: seq<Window>): (r: seq<Window>)
    ensures forall i :: 0 <= i < |r| ==> InWorkspace(g, r[i]) && r[i] in windows
    ensures forall i :: 0 <= i < |windows| && InWorkspace(g, windows[i]) ==> windows[i] in r
    ensures IsSubsequence(r, windows)
  {
    var inWorkspace := (w: Window) => InWorkspace(g, w);
    FilterSound(inWorkspace, windows);
    FilterComplete(inWorkspace, windows);
    FilterIsSubsequence(inWorkspace, windows);
    Filter(inWorkspace, windows)
  }

  /** Filtering the current workspace's windows again changes nothing. */
  lemma CurrentWorkspaceIdempotent(g: WorkspaceGrid, windows: seq<Window>)
    ensures CurrentWorkspaceWindows(g, CurrentWorkspaceWindows(g, windows)) == CurrentWorkspaceWindows(g, windows)
  {
    FilterIdempotent((w: Window) => InWorkspace(g, w), windows);
  }

  /** The listing is returned whole exactly when every window is in the current workspace. */
  lemma CurrentWorkspaceKeepsAll(g: WorkspaceGrid, windows: seq<Window>)
    ensures CurrentWorkspaceWindows(g, windows) == windows <==> forall i :: 0 <= i < |windows| ==> InWorkspace(g, windows[i])
  {
    FilterKeepsAll((w: Window) => InWorkspace(g, w), windows);
  }

  /** A window above the top edge is still counted in, as long as its
      horizontal offset is in range. */
  lemma NegativeVerticalOffsetKept(g: WorkspaceGrid, w: Window)
    requires 0 <= w.xOffset < g.monitorWidth * g.monitorHorizontalCount
    requires w.yOffset < 0 && g.monitorHeight >= 0 && g.monitorVerticalCount >= 0
    ensures CurrentWorkspaceWindows(g, [w]) == [w]
  {
    CurrentWorkspaceKeepsAll(g, [w]);
  }

  /** With the default grid the three monitors start at x = 0, 1920 and 3840,
      all in the current workspace; x = 5760 is the next workspace. */
  lemma DefaultMonitors(g: WorkspaceGrid, y: int)
    requires WithDefaults("") == Ok(g)
    requires y < 1080
    ensures InWorkspace(g, Window(None, 0, y, 0, None, "", ""))
    ensures InWorkspace(g, Window(None, 1920, y, 0, None, "", ""))
    ensures InWorkspace(g, Window(None, 3840, y, 0, None, "", ""))
    ensures !InWorkspace(g, Window(None, 5760, y, 0, None, "", ""))
  {
  }
}
