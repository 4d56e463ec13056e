# easy-window-switcher in Dafny

This project models the text-processing core of easy-window-switcher. The tool
asks `wmctrl` about the desktop and its windows, then works out which windows sit
on the current workspace. The model covers:

- **Window line parser** (`window.dfy`). One line of `wmctrl -l -G -x` is split on
  single spaces and the empty strings are dropped. The columns are then read as:
  - column 0: the id;
  - columns 2-5: x, y, width and height, each converted by `int()`;
  - column 6: the class;
  - columns 8 onward: the title, re-joined with single spaces.

  A `Window` built without a line keeps the given offsets, width, class and
  title. Its `id` and `height` stay unset.
- **Workspace offsets** (`workspace.dfy`). The `"X,Y"` text parses into the
  workspace's top-left pixel offset, and `repr` writes it back.
- **Workspace grid** (`workspace_grid.dfy`). This covers:
  - the `"WxH"` extent and its `repr`;
  - the monitor layout and workspace counts, with their defaults;
  - the row-major index table, built by two nested loops;
  - the lookup from a workspace offset to its index.
- **wmctrl parsers** (`wmctrl.dfy`). The `wmctrl -d` line is cut at the `DG:`,
  `VP:` and `WA:` markers. The window listing is split into lines, each line is
  parsed, and only application windows are kept.
- **Current-workspace filter** (`window_focuser.dfy`). It keeps the windows whose
  x offset lies within the monitor row and whose y offset is above the bottom
  of the monitor column.

Supporting modules:
- `outcomes.dfy` turns the Python exceptions the code can raise into values.
- `text.dfy` models the Python built-ins the parsers rely on:
  - `str.split` with a non-empty separator;
  - `str.join` and `str.strip`;
  - `int()` on base-10 text;
  - `str()` on integers.
- `seqs.dfy` models `filter`.

A Python exception is modelled as `Err(IndexError | ValueError | ZeroDivisionError)`.
When several exceptions are possible, the model reports the first one the source
would raise, following its evaluation order. For example, the desktop line is
parsed into a grid before its workspace field is looked up. Where the order
cannot be seen in the result, as when the grid parser converts the height before
the width and either failure is the same ValueError, the model still converts in
the source's order.

The model follows the code:
- The current-workspace test has no lower bound on the vertical offset
  (easywindowswitcher/services/window_focuser.py:25-29).
- The lookup divides the workspace offset by the width of the whole monitor row
  (`monitor_width * monitor_horizontal_count`). It does not divide by a single
  monitor's width (easywindowswitcher/data_models/workspace_grid.py:60-61).

## Model

| member | source | states |
|---|---|---|
| Seqs.FilterSound | easywindowswitcher/services/window_focuser.py:31 | every element `filter` keeps is an element of the input and satisfies the predicate |
| Seqs.FilterComplete | easywindowswitcher/services/window_focuser.py:31 | every input element that satisfies the predicate is kept |
| Seqs.FilterIsSubsequence | easywindowswitcher/services/window_focuser.py:31 | the result of `filter` is an order-preserving subsequence of its input |
| Seqs.FilterConcat | easywindowswitcher/external_services/wmctrl.py:31-40 | filtering a concatenation is the concatenation of the filtered parts |
| Seqs.FilterIdempotent | easywindowswitcher/services/window_focuser.py:31 | filtering the output of a filter again changes nothing |
| Seqs.FilterKeepsAll | easywindowswitcher/services/window_focuser.py:31 | the filter returns its input whole exactly when every element satisfies the predicate |
| Seqs.Filter | easywindowswitcher/data_models/window.py:71 | `list(filter(p, s))` is never longer than `s`; FilterSound, FilterComplete and FilterIsSubsequence state which elements it keeps |
| Text.Join | easywindowswitcher/data_models/window.py:79 | `sep.join(parts)` of one or more parts starts with the first part; JoinSplit makes it the inverse of `split` |
| Text.Strip | easywindowswitcher/external_services/wmctrl.py:22-23 | what `strip` returns is empty or has no whitespace at either end; StripSurrounded says which whitespace it removes |
| Text.Split | easywindowswitcher/data_models/window.py:71 | `str.split` always yields at least one piece |
| Text.JoinSplit | easywindowswitcher/data_models/window.py:71 | joining the pieces of a split with the same separator restores the text |
| Text.SplitHasSecondPiece | easywindowswitcher/external_services/wmctrl.py:20 | a split has a second piece (index 1 exists) exactly when the separator occurs in the text |
| Text.SplitAtChar | easywindowswitcher/data_models/workspace.py:20 | around one occurrence of a one-character separator, the two sides split independently and their pieces are concatenated |
| Text.SplitWithoutChar | easywindowswitcher/data_models/workspace.py:20 | text without the separator character splits into itself alone |
| Text.SplitAtMarker | easywindowswitcher/external_services/wmctrl.py:20-22 | in colon-free text followed by a marker such as `DG:`, the first piece is exactly that text |
| Text.SplitPastMarker | easywindowswitcher/external_services/wmctrl.py:20-22 | a different marker of the same length does not cut the text; it stays inside the first piece |
| Text.SplitColonFree | easywindowswitcher/external_services/wmctrl.py:20-22 | colon-free text holds no marker and is a single piece |
| Text.StripSurrounded | easywindowswitcher/external_services/wmctrl.py:22-23 | `strip` removes exactly the whitespace runs around text that has no whitespace at either end |
| Text.ParseInt | easywindowswitcher/data_models/window.py:74-77 | every failure of `int()` on text is a ValueError |
| Text.ForeignCharFails | easywindowswitcher/data_models/window.py:74-77 | `int()` raises ValueError on any text that holds a character other than the whitespace `int()` skips, a digit, `+`, `-` or `_` |
| Text.BlankFails | easywindowswitcher/data_models/window.py:74-77 | `int()` raises ValueError on empty or all-whitespace text |
| Text.SeparatorNotSkipped | easywindowswitcher/data_models/window.py:74-77 | `int()` skips less whitespace than `strip`: U+001C before a digit is stripped by `strip` but makes `int()` raise ValueError |
| Text.IntToString | easywindowswitcher/data_models/workspace.py:17 | `str(n)` is canonical decimal text: an optional minus sign, then digits without a leading zero |
| Text.ParseCanonical | easywindowswitcher/data_models/workspace.py:21-23 | `int()` reads canonical text as the value of its digits, negated after a minus sign |
| Text.ParseIntToString | easywindowswitcher/data_models/workspace.py:16-23 | `int(str(n)) == n` for every integer (CPython's digit limit is not modelled) |
| Text.IntToStringOfParse | easywindowswitcher/data_models/workspace.py:16-23 | `str(int(s)) == s` for every canonical integer text |
| Text.CanonicalAvoids | easywindowswitcher/data_models/workspace.py:17 | text written by `str(n)` contains no character other than digits and `-`, so no comma and no `x` |
| Windows.Tokens | easywindowswitcher/data_models/window.py:71 | every column that the split-and-filter keeps is non-empty and holds no space |
| Windows.ParseWindowConfig | easywindowswitcher/data_models/window.py:53-79 | a parsed window always has an id and a height, and its id and class are single columns (non-empty, no space) |
| Windows.ParseColumns | easywindowswitcher/data_models/window.py:73-79 | the columns parse exactly when there are at least 7 of them and columns 2-5 are integers. The result takes id = column 0, geometry = columns 2-5, class = column 6 and title = columns 8 onward joined by spaces. With at least 7 columns every failure is ValueError, and when every present geometry column converts the failure is IndexError |
| Windows.NewWindow | easywindowswitcher/data_models/window.py:39-46 | an empty line takes the direct path: the given offsets, width, class and title are stored and `id` and `height` are unset. A non-empty line is parsed |
| Windows.TokensOfJoin | easywindowswitcher/data_models/window.py:71 | non-empty, space-free columns joined by single spaces tokenise back to the same columns |
| Windows.TokensAroundSpaces | easywindowswitcher/data_models/window.py:71 | a run of any number of spaces separates tokens exactly as one space does |
| Windows.SpaceRunsCollapse | easywindowswitcher/data_models/window.py:71-79 | replacing one space by a run of spaces anywhere in a line, the title included, does not change the parsed window |
| Windows.ParseJoinedColumns | easywindowswitcher/data_models/window.py:71-79 | a line made of at least 8 columns parses to column 0, columns 2-5, column 6 and the columns after the eighth |
| Windows.ParseListingLine | easywindowswitcher/data_models/window.py:60-79 | a line printed from an id, desktop, four integers, class, host and title words parses back to those fields; the desktop and host are dropped |
| Windows.UntitledListingLine | easywindowswitcher/data_models/window.py:67-79 | a line with exactly eight columns has an empty title |
| Windows.DocumentedSpacing | easywindowswitcher/data_models/window.py:58-71 | the column spacing of the documented example line tokenises into its nine columns |
| Windows.DocumentedLine | easywindowswitcher/data_models/window.py:58-68 | the documented example line parses to id 0x05000006, offsets 1920,24, size 1920x1056, class gnome-terminal-server.Gnome-terminal and title Terminal |
| Workspaces.ParseWorkspaceDimensions | easywindowswitcher/data_models/workspace.py:19-23 | `"X,Y"` parses exactly when the first comma piece is an integer and a second piece exists and is an integer; the values are those pieces. IndexError is raised exactly when the first piece is an integer and there is no comma |
| Workspaces.NewWorkspace | easywindowswitcher/data_models/workspace.py:7-14 | empty text stores the given offsets unchanged; other text is parsed |
| Workspaces.Repr | easywindowswitcher/data_models/workspace.py:16-17 | `repr` splits on commas into exactly `str(x)` and `str(y)` |
| Workspaces.ParseRepr | easywindowswitcher/data_models/workspace.py:16-23 | parsing `repr(ws)` gives `ws` back |
| Workspaces.ReprParse | easywindowswitcher/data_models/workspace.py:16-23 | for canonical integer texts `x` and `y`, `repr` of the workspace parsed from `x,y` is `x,y` |
| Workspaces.NoCommaFails | easywindowswitcher/data_models/workspace.py:20-23 | non-empty text without a comma never makes a workspace |
| Workspaces.NonIntegerFails | easywindowswitcher/data_models/workspace.py:21-23 | a component that `int()` rejects makes the parse fail with ValueError |
| Workspaces.ExampleOffsets | easywindowswitcher/data_models/workspace.py:11-14 | `"5760,0"` is the workspace at offset 5760,0 |
| WorkspaceGrids.IndexTable | easywindowswitcher/data_models/workspace_grid.py:84-92 | the table has one row per vertical position and each row one cell per horizontal position |
| WorkspaceGrids.GenerateWorkspaceIndices | easywindowswitcher/data_models/workspace_grid.py:74-92 | the nested loops of appends build exactly the index table |
| WorkspaceGrids.FlattenIndexTable | easywindowswitcher/data_models/workspace_grid.py:84-92 | read row by row, the table counts 0, 1, ..., h*v - 1 |
| WorkspaceGrids.IndexTableCells | easywindowswitcher/data_models/workspace_grid.py:89-90 | cell [i][j] is i*h + j, and two cells hold the same number only when they are the same cell |
| WorkspaceGrids.ParseGridDimensions | easywindowswitcher/data_models/workspace_grid.py:68-72 | `"WxH"` parses exactly when there is a second `x` piece and both pieces are integers. IndexError is raised exactly when no `x` occurs. Which of the two conversions fails first cannot be observed, since `int()` raises ValueError either way |
| WorkspaceGrids.NewWorkspaceGrid | easywindowswitcher/data_models/workspace_grid.py:15-43 | the extent is parsed from non-empty text and otherwise stored as given; the monitor layout and counts are stored as given, and the index table is the one the counts call for |
| WorkspaceGrids.WithDefaults | easywindowswitcher/data_models/workspace_grid.py:5-43 | the default grid has three 1920x1080 monitors in one row and the table [[0,1,2],[3,4,5],[6,7,8]] |
| WorkspaceGrids.DefaultTable | easywindowswitcher/data_models/workspace_grid.py:75-83 | the 3x3 table is [[0,1,2],[3,4,5],[6,7,8]] |
| WorkspaceGrids.GridRepr | easywindowswitcher/data_models/workspace_grid.py:65-66 | `repr` splits on `x` into exactly `str(width)` and `str(height)` |
| WorkspaceGrids.ParseGridRepr | easywindowswitcher/data_models/workspace_grid.py:65-72 | parsing `repr(grid)` gives its width and height back |
| WorkspaceGrids.ParseExtent | easywindowswitcher/data_models/workspace_grid.py:65-72 | the text `str(w) + "x" + str(h)` parses back to width w and height h |
| WorkspaceGrids.GridReprParse | easywindowswitcher/data_models/workspace_grid.py:65-72 | for canonical integer texts `w` and `h`, `repr` of the grid parsed from `wxh` is `wxh` |
| WorkspaceGrids.GetWorkspaceIndex | easywindowswitcher/data_models/workspace_grid.py:45-63 | ZeroDivisionError exactly when a monitor factor is 0. Otherwise, on a well-formed grid, the result is row*h + column (column = x div row width, row = y div column height) exactly when both are inside the table, and IndexError when not |
| WorkspaceGrids.IndexOfCell | easywindowswitcher/data_models/workspace_grid.py:60-63 | any offset inside workspace (row, column) looks up row*h + column |
| WorkspaceGrids.DefaultIndices | easywindowswitcher/data_models/workspace_grid.py:49-58 | on the default grid, the nine offsets of the comment map to 0-8 |
| WorkspaceGrids.DefaultPastLastColumn | easywindowswitcher/data_models/workspace_grid.py:63 | an offset past the last column raises IndexError |
| WMCtrl.ParseSystemConfig | easywindowswitcher/external_services/wmctrl.py:18-25 | output without `DG:` raises IndexError; a parsed grid is well formed and has the default monitor width |
| WMCtrl.SystemConfigFields | easywindowswitcher/external_services/wmctrl.py:20-23 | the grid is parsed from the stripped text between `DG:` and `VP:`, and the workspace from the stripped text between `VP:` and `WA:`, when the text before `DG:` and both fields hold no colon; the grid's failure comes first |
| WMCtrl.NoGridFieldFails | easywindowswitcher/external_services/wmctrl.py:20 | empty output, or any output too short to hold `DG:`, raises IndexError |
| WMCtrl.NoWorkspaceFieldFails | easywindowswitcher/external_services/wmctrl.py:20-23 | a `DG:` field with no `VP:` raises IndexError once the grid extent has parsed; a bad extent fails first |
| WMCtrl.NotAvailableFails | easywindowswitcher/external_services/wmctrl.py:23 | `int("N/A")`, the viewport text wmctrl prints for a desktop that is not current, raises ValueError |
| WMCtrl.NonCurrentDesktopFails | easywindowswitcher/external_services/wmctrl.py:18-25 | a desktop line with `VP: N/A` fails with ValueError once its grid has parsed |
| WMCtrl.ExampleSystemConfig | easywindowswitcher/external_services/wmctrl.py:19-25 | the comment's desktop line gives a 17280x3240 grid and the workspace at 5760,0 |
| WMCtrl.WindowOfLine | easywindowswitcher/external_services/wmctrl.py:32 | an empty line is the default window (y offset 0, class and title empty); other lines are parsed |
| WMCtrl.IsApplicationWindow | easywindowswitcher/external_services/wmctrl.py:34-40 | the test a parsed line must pass to be kept: a class other than N/A and a positive y offset; WindowsSound and WindowsComplete show the result keeps exactly such windows |
| WMCtrl.WindowsFromConfig | easywindowswitcher/external_services/wmctrl.py:27-42 | the listing parses exactly when every line makes a window, and then holds at most one window per line |
| WMCtrl.LinesParse | easywindowswitcher/external_services/wmctrl.py:31-32 | the lines parse together exactly when each line parses |
| WMCtrl.ParseLines | easywindowswitcher/external_services/wmctrl.py:31-32 | a parsed listing has one window per line |
| WMCtrl.ParseLinesEach | easywindowswitcher/external_services/wmctrl.py:31-32 | the lines parse exactly when each line parses, and window i is line i's window |
| WMCtrl.PrefixFailure | easywindowswitcher/external_services/wmctrl.py:31-32 | the first line that fails decides the exception |
| WMCtrl.ParseLinesConcat | easywindowswitcher/external_services/wmctrl.py:31-32 | parsing two runs of lines together gives the windows of the first run, then those of the second |
| WMCtrl.ParseWindowsConfig | easywindowswitcher/external_services/wmctrl.py:27-42 | the loop returns exactly the lines' windows filtered to application windows, or the first line's exception |
| WMCtrl.WindowsSound | easywindowswitcher/external_services/wmctrl.py:34-40 | every returned window has a class other than N/A and a positive y offset, and is one of the parsed windows |
| WMCtrl.WindowsComplete | easywindowswitcher/external_services/wmctrl.py:31-40 | every line whose window has a class other than N/A and a positive y offset is in the result |
| WMCtrl.KeepsEveryLine | easywindowswitcher/external_services/wmctrl.py:31-40 | the same completeness, for any line parser |
| WMCtrl.WindowsInOrder | easywindowswitcher/external_services/wmctrl.py:28-42 | the result is an order-preserving subsequence of the parsed lines |
| WMCtrl.EmptyConfig | easywindowswitcher/external_services/wmctrl.py:28-40 | empty output parses without error to no windows |
| WMCtrl.WindowsConcat | easywindowswitcher/external_services/wmctrl.py:28-40 | two listings joined by a newline give the windows of the first, then those of the second |
| WMCtrl.TrailingNewlineDropped | easywindowswitcher/external_services/wmctrl.py:28-40 | a trailing newline changes nothing |
| WMCtrl.BlankLineDropped | easywindowswitcher/external_services/wmctrl.py:28-40 | an empty line between two listings is dropped, not rejected |
| WMCtrl.SpacesFailWindow | easywindowswitcher/data_models/window.py:71-73 | a line made only of spaces has no columns, so parsing it raises IndexError |
| WMCtrl.SpaceLineFails | easywindowswitcher/external_services/wmctrl.py:28-32 | a line made only of spaces, after lines that parse, makes the whole listing raise IndexError |
| WMCtrl.LineBetween | easywindowswitcher/external_services/wmctrl.py:28 | text without a line feed between two line feeds is exactly one line of the split listing |
| WindowFocuser.InWorkspace | easywindowswitcher/services/window_focuser.py:13-29 | `in_workspace`: 0 <= x < monitor width * horizontal monitors and y < monitor height * vertical monitors, with no lower bound on y; CurrentWorkspaceWindows keeps exactly these |
| WindowFocuser.CurrentWorkspaceWindows | easywindowswitcher/services/window_focuser.py:12-31 | every kept window has 0 <= x < monitor row width and y < monitor column height, and is one of the input windows. Every input window that satisfies this is kept, and the result preserves the input order |
| WindowFocuser.CurrentWorkspaceIdempotent | easywindowswitcher/services/window_focuser.py:31 | filtering the current workspace's windows again changes nothing |
| WindowFocuser.CurrentWorkspaceKeepsAll | easywindowswitcher/services/window_focuser.py:31 | the listing comes back whole exactly when every window is in the current workspace |
| WindowFocuser.NegativeVerticalOffsetKept | easywindowswitcher/services/window_focuser.py:25-29 | a window with x in range and a negative y is kept |
| WindowFocuser.DefaultMonitors | easywindowswitcher/services/window_focuser.py:19-28 | on the default grid, x = 0, 1920 and 3840 are in the current workspace and x = 5760 is not |

## Left out

- Running `wmctrl` is left out. `WMCtrl.get_workspace_config` and
  `get_windows_config` run the command, and `WindowFocuser.__init__` calls them.
  The parsers and the filter take the command output, or the parsed windows and
  grid, as parameters instead.
- `utils/service_helpers.py` (subprocess, logging, `shlex.quote`) is left out:
  it is I/O over foreign libraries.
- The command-line layer is left out: `main.py`, `commands/root.py` and
  `test_main.py`. `setup.py` is packaging and is also left out.
- `Window.__repr__` is left out. It is multi-line debug text and reads `id` and
  `height`, which may be unset.
- Monitor classification, focusing by monitor index and directional wraparound
  navigation do not exist in the modelled code, so they are not modelled.
- WorkspaceGrids.GetWorkspaceIndex requires non-negative offsets and monitor
  factors. It models `int(a / b / c)` as integer division by `b * c`, which
  agrees for those inputs. Truncation toward zero on negative offsets, Python's
  negative list indices and floating-point rounding on very large offsets are
  not modelled.
- Text.ParseIntToString: CPython 3.11 and later refuse to convert integers of more
  than 4300 decimal digits in either direction and raise ValueError. The model
  has no such limit, so `int(str(n)) == n` holds here for every integer.
- Text.ParseInt accepts ASCII digits only. `int()` also reads other Unicode
  decimal digits, which are not modelled. The whitespace it skips at either
  end is the C-locale set (tab, line feed, vertical tab, form feed, carriage
  return, space) plus every non-ASCII `str.isspace` character; the ASCII
  separators U+001C to U+001F, which `strip` removes, are not skipped.
- Text.Split models `str.split` with a non-empty separator, which is the only
  kind the code uses.
- The direct constructor paths accept the keyword arguments `Window(id=...)`
  and `Window(height=...)`, but the source never stores them. The model has no
  field for them beyond `None`.
