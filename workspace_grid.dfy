/** The grid of workspaces the desktop is divided into: its `"WxH"` extent,
    the monitor layout it assumes, the table that numbers its workspaces and
    the lookup from a workspace's pixel offset to its number. */
module WorkspaceGrids {
  import opened Outcomes
  import opened Text
  import opened Workspaces

  // The monitor environment the program assumes.
  const MonitorHorizontalCount: int := 3
  const MonitorVerticalCount: int := 1
  const MonitorHeight: int := 1080
  const MonitorWidth: int := 1920

  const WorkspaceHorizontalCount: int := 3
  const WorkspaceVerticalCount: int := 3

  /** The total extent `"WxH"` of the desktop. */
  datatype Dimensions = Dimensions(width: int, height: int)

  datatype WorkspaceGrid = WorkspaceGrid(
    height: int,
    width: int,
    monitorHorizontalCount: int,
    monitorVerticalCount: int,
    monitorHeight: int,
    monitorWidth: int,
    workspaceHorizontalCount: int,
    workspaceVerticalCount: int,
    workspaceIndices: seq<seq<int>>)

  // ------------------------------------------------------------ index table

  /** The number of values `range(n)` yields. */
  function RangeLength(n: int): nat
  {
    if n < 0 then 0 else n
  }

  /** The table of workspace numbers: `vertical` rows of `horizontal` cells,
      numbered left to right, top to bottom. */
  function IndexTable(horizontal: int, vertical: int): (r: seq<seq<int>>)
    ensures |r| == RangeLength(vertical)
    ensures forall i :: 0 <= i < |r| ==> |r[i]| == RangeLength(horizontal)
  {
    seq(RangeLength(vertical), i => seq(RangeLength(horizontal), j => i * horizontal + j))
  }

  /** `_generate_workspace_indices`: appends an empty row per row index, then
      that row's numbers one by one. */
  method GenerateWorkspaceIndices(horizontalCount: int, verticalCount: int) returns (indicesGrid: seq<seq<int>>)
    ensures indicesGrid == IndexTable(horizontalCount, verticalCount)
  {
    indicesGrid := [];
    var i := 0;
    while i < verticalCount
      invariant 0 <= i <= RangeLength(verticalCount)
      invariant indicesGrid == IndexTable(horizontalCount, i)
    {
      indicesGrid := indicesGrid + [[]];
      var j := 0;
      while j < horizontalCount
        invariant 0 <= j <= RangeLength(horizontalCount)
        invariant |indicesGrid| == i + 1
        invariant indicesGrid[..i] == IndexTable(horizontalCount, i)
        invariant indicesGrid[i] == seq(j, k => i * horizontalCount + k)
      {
        indicesGrid := indicesGrid[i := indicesGrid[i] + [i * horizontalCount + j]];
        j := j + 1;
      }
      assert indicesGrid == IndexTable(horizontalCount, i) + [indicesGrid[i]];
      i := i + 1;
    }
  }

  /** The rows of a table, one after another. */
  function Flatten(rows: seq<seq<int>>): (r: seq<int>)
  {
    if rows == [] then [] else rows[0] + Flatten(rows[1..])
  }

  lemma {:induction false} FlattenSnoc(rows: seq<seq<int>>, row: seq<int>)
    ensures Flatten(rows + [row]) == Flatten(rows) + row
  {
    if rows == [] {
      assert rows + [row] == [row];
    } else {
      assert (rows + [row])[1..] == rows[1..] + [row];
      FlattenSnoc(rows[1..], row);
    }
  }

  /** The numbers 0, 1, ..., n - 1. */
  function Count(n: nat): seq<int>
  {
    seq(n, k => k)
  }

  /** The h numbers start, start + 1, ..., start + h - 1. */
  function Run(start: int, h: nat): seq<int>
  {
    seq(h, j => start + j)
  }

  /** Read row by row, the table counts 0, 1, ..., h*v - 1. */
  lemma {:induction false} FlattenIndexTable(horizontal: nat, vertical: nat)
    ensures Flatten(IndexTable(horizontal, vertical)) == Count(horizontal * vertical)
  {
    if vertical > 0 {
      FlattenIndexTable(horizontal, vertical - 1);
      FlattenStep(horizontal, vertical - 1);
    }
  }

  /** One more row carries the count on by `horizontal` numbers. */
  lemma FlattenStep(horizontal: nat, v: nat)
    requires Flatten(IndexTable(horizontal, v)) == Count(horizontal * v)
    ensures Flatten(IndexTable(horizontal, v + 1)) == Count(horizontal * (v + 1))
  {
    var n := v * horizontal;
    var rows := IndexTable(horizontal, v);
    var row := Run(n, horizontal);
    TableSnoc(horizontal, v, n);
    FlattenSnoc(rows, row);
    assert horizontal * v == n;
    CountSnoc(n, horizontal, horizontal * (v + 1));
    FlattenChain(IndexTable(horizontal, v + 1), rows, row, Count(n), Count(horizontal * (v + 1)));
  }

  lemma FlattenChain(whole: seq<seq<int>>, rows: seq<seq<int>>, row: seq<int>, front: seq<int>, all: seq<int>)
    requires whole == rows + [row] && Flatten(rows + [row]) == Flatten(rows) + row
    requires Flatten(rows) == front && front + row == all
    ensures Flatten(whole) == all
  {
  }

  lemma TableSnoc(horizontal: nat, v: nat, n: int)
    requires n == v * horizontal
    ensures IndexTable(horizontal, v + 1) == IndexTable(horizontal, v) + [Run(n, horizontal)]
  {
  }

  lemma CountSnoc(n: nat, h: nat, total: int)
    requires total == n + h
    ensures Count(n) + Run(n, h) == Count(total)
  {
  }

  /** Each cell is row * h + column, and no two cells share a number. */
  lemma IndexTableCells(horizontal: int, vertical: int, i: int, j: int, i': int, j': int)
    requires 0 <= i < vertical && 0 <= j < horizontal && 0 <= i' < vertical && 0 <= j' < horizontal
    ensures IndexTable(horizontal, vertical)[i][j] == i * horizontal + j
    ensures IndexTable(horizontal, vertical)[i][j] == IndexTable(horizontal, vertical)[i'][j'] <==> i == i' && j == j'
  {
    if i < i' {
      MulStep(i, i', horizontal);
    } else if i' < i {
      MulStep(i', i, horizontal);
    }
  }

  lemma {:induction false} MulStep(a: int, b: int, h: int)
    requires a < b && h > 0
    ensures a * h + h <= b * h
    decreases b - a
  {
    assert (a + 1) * h == a * h + h;
    if a + 1 < b {
      MulStep(a + 1, b, h);
    }
  }

  // ---------------------------------------------------------------- parsing

  /** `"WxH"` split on `x`: the height (second component) is converted first,
      then the width. */
  function ParseGridDimensions(raw: string): (r: Result<Dimensions>)
    ensures var parts := Split(raw, "x");
      r.Ok? <==> |parts| >= 2 && ParseInt(parts[1]).Ok? && ParseInt(parts[0]).Ok?
    ensures var parts := Split(raw, "x");
      r.Ok? ==> ParseInt(parts[0]) == Ok(r.value.width) && ParseInt(parts[1]) == Ok(r.value.height)
    ensures r.Err? ==> (r.failure == IndexError <==> |Split(raw, "x")| < 2)
  {
    var parts := Split(raw, "x");
    if |parts| < 2 then Err(IndexError)
    else
      var height :- ParseInt(parts[1]);
      var width :- ParseInt(parts[0]);
      Ok(Dimensions(width, height))
  }

  /** `WorkspaceGrid(raw_dimensions, height, width, ...)`: the extent is parsed
      from non-empty text and otherwise taken as given; the monitor layout and
      the workspace counts are stored, and the index table is built from the
      counts. */
  function NewWorkspaceGrid(rawDimensions: string, height: int, width: int,
                            monitorHorizontalCount: int, monitorVerticalCount: int,
                            monitorHeight: int, monitorWidth: int,
                            workspaceHorizontalCount: int, workspaceVerticalCount: int): (r: Result<WorkspaceGrid>)
    ensures rawDimensions == [] ==> r.Ok? && r.value.width == width && r.value.height == height
    ensures rawDimensions != [] ==>
      (r.Ok? <==> ParseGridDimensions(rawDimensions).Ok?)
      && (r.Ok? ==> Dimensions(r.value.width, r.value.height) == ParseGridDimensions(rawDimensions).value)
      && (r.Err? ==> r.failure == ParseGridDimensions(rawDimensions).failure)
    ensures r.Ok? ==>
      r.value.monitorHorizontalCount == monitorHorizontalCount && r.value.monitorVerticalCount == monitorVerticalCount
      && r.value.monitorHeight == monitorHeight && r.value.monitorWidth == monitorWidth
      && r.value.workspaceHorizontalCount == workspaceHorizontalCount
      && r.value.workspaceVerticalCount == workspaceVerticalCount
      && WellFormed(r.value)
  {
    var dims :- if rawDimensions != [] then ParseGridDimensions(rawDimensions) else Ok(Dimensions(width, height));
    Ok(WorkspaceGrid(dims.height, dims.width, monitorHorizontalCount, monitorVerticalCount,
                     monitorHeight, monitorWidth, workspaceHorizontalCount, workspaceVerticalCount,
                     IndexTable(workspaceHorizontalCount, workspaceVerticalCount)))
  }

  /** A grid whose index table is the one its workspace counts call for. */
  predicate WellFormed(g: WorkspaceGrid)
  {
    g.workspaceIndices == IndexTable(g.workspaceHorizontalCount, g.workspaceVerticalCount)
  }

  /** The grid built with every default but the extent text. */
  function WithDefaults(rawDimensions: string): (r: Result<WorkspaceGrid>)
    ensures r.Ok? ==>
      r.value.monitorWidth == 1920 && r.value.monitorHeight == 1080
      && r.value.monitorHorizontalCount == 3 && r.value.monitorVerticalCount == 1
      && r.value.workspaceIndices == [[0, 1, 2], [3, 4, 5], [6, 7, 8]]
  {
    DefaultTable();
    NewWorkspaceGrid(rawDimensions, 0, 0, MonitorHorizontalCount, MonitorVerticalCount, MonitorHeight,
                     MonitorWidth, WorkspaceHorizontalCount, WorkspaceVerticalCount)
  }

  /** The 3x3 table of the source's documentation. */
  lemma DefaultTable()
    ensures IndexTable(3, 3) == [[0, 1, 2], [3, 4, 5], [6, 7, 8]]
  {
    assert IndexTable(3, 3)[0] == [0, 1, 2];
    assert IndexTable(3, 3)[1] == [3, 4, 5];
    assert IndexTable(3, 3)[2] == [6, 7, 8];
  }

  /** `repr(grid)`: width and height written by `str`, separated by the only `x`. */
  function GridRepr(g: WorkspaceGrid): (r: string)
    ensures Split(r, "x") == [IntToString(g.width), IntToString(g.height)]
  {
    var w := IntToString(g.width);
    var h := IntToString(g.height);
    CanonicalAvoids(w, 'x');
    CanonicalAvoids(h, 'x');
    SplitAtChar(w, 'x', h);
    SplitWithoutChar(w, 'x');
    SplitWithoutChar(h, 'x');
    w + "x" + h
  }

  /** Parsing what `repr` writes gives the extent back. */
  lemma ParseGridRepr(g: WorkspaceGrid)
    ensures ParseGridDimensions(GridRepr(g)) == Ok(Dimensions(g.width, g.height))
  {
    ParseExtent(g.width, g.height);
  }

  /** An extent written as `"{}x{}".format(width, height)` parses back. */
  lemma ParseExtent(width: int, height: int)
    ensures ParseGridDimensions(IntToString(width) + "x" + IntToString(height)) == Ok(Dimensions(width, height))
  {
    var w := IntToString(width);
    var h := IntToString(height);
    CanonicalAvoids(w, 'x');
    CanonicalAvoids(h, 'x');
    SplitAtChar(w, 'x', h);
    SplitWithoutChar(w, 'x');
    SplitWithoutChar(h, 'x');
    ParseIntToString(width);
    ParseIntToString(height);
  }

  /** For extents written the way `str` writes integers, `repr` of the parsed
      grid is the text it was parsed from. */
  lemma GridReprParse(w: string, h: string)
    requires IsCanonicalInt(w) && IsCanonicalInt(h)
    ensures var r := WithDefaults(w + "x" + h);
      r.Ok? && GridRepr(r.value) == w + "x" + h
  {
    CanonicalAvoids(w, 'x');
    CanonicalAvoids(h, 'x');
    SplitAtChar(w, 'x', h);
    SplitWithoutChar(w, 'x');
    SplitWithoutChar(h, 'x');
    IntToStringOfParse(w);
    IntToStringOfParse(h);
  }

  // ----------------------------------------------------------------- lookup

  /** `get_workspace_index`: the column is the horizontal offset divided by
      the width of the monitor row, the row the vertical offset divided by the
      height of the monitor column, and the number is read from the table. */
  function GetWorkspaceIndex(g: WorkspaceGrid, ws: Workspace): (r: Result<int>)
    requires ws.width >= 0 && ws.height >= 0
    requires g.monitorWidth >= 0 && g.monitorHorizontalCount >= 0
    requires g.monitorHeight >= 0 && g.monitorVerticalCount >= 0
    ensures r == Err(ZeroDivisionError) <==>
      g.monitorWidth == 0 || g.monitorHorizontalCount == 0 || g.monitorHeight == 0 || g.monitorVerticalCount == 0
    ensures WellFormed(g) && r != Err(ZeroDivisionError) ==>
      var column := ws.width / (g.monitorWidth * g.monitorHorizontalCount);
      var row := ws.height / (g.monitorHeight * g.monitorVerticalCount);
      (r.Ok? <==> column < g.workspaceHorizontalCount && row < g.workspaceVerticalCount)
      && (r.Ok? ==> r.value == row * g.workspaceHorizontalCount + column)
      && (r.Err? ==> r.failure == IndexError)
  {
    if g.monitorWidth == 0 || g.monitorHorizontalCount == 0 then Err(ZeroDivisionError)
    else
      var horizontalIndex := ws.width / (g.monitorWidth * g.monitorHorizontalCount);
      if g.monitorHeight == 0 || g.monitorVerticalCount == 0 then Err(ZeroDivisionError)
      else
        var verticalIndex := ws.height / (g.monitorHeight * g.monitorVerticalCount);
        if verticalIndex >= |g.workspaceIndices| then Err(IndexError)
        else if horizontalIndex >= |g.workspaceIndices[verticalIndex]| then Err(IndexError)
        else Ok(g.workspaceIndices[verticalIndex][horizontalIndex])
  }

  lemma DivOfCell(q: nat, m: int, d: int)
    requires m > 0 && 0 <= d < m
    ensures (q * m + d) / m == q
  {
    var x := q * m + d;
    var k := x / m;
    assert x == k * m + x % m;
    if k < q {
      MulStep(k, q, m);
    } else if k > q {
      MulStep(q, k, m);
    }
  }

  /** Any offset inside workspace (row, column) of a well-formed grid looks up
      number row * h + column. */
  lemma IndexOfCell(g: WorkspaceGrid, row: nat, column: nat, dx: int, dy: int)
    requires WellFormed(g)
    requires g.monitorWidth > 0 && g.monitorHorizontalCount > 0 && g.monitorHeight > 0 && g.monitorVerticalCount > 0
    requires row < g.workspaceVerticalCount && column < g.workspaceHorizontalCount
    requires 0 <= dx < g.monitorWidth * g.monitorHorizontalCount
    requires 0 <= dy < g.monitorHeight * g.monitorVerticalCount
    ensures GetWorkspaceIndex(g, Workspace(column * (g.monitorWidth * g.monitorHorizontalCount) + dx,
                                           row * (g.monitorHeight * g.monitorVerticalCount) + dy))
         == Ok(row * g.workspaceHorizontalCount + column)
  {
    DivOfCell(column, g.monitorWidth * g.monitorHorizontalCount, dx);
    DivOfCell(row, g.monitorHeight * g.monitorVerticalCount, dy);
  }

  /** The nine offsets of the source's comment, on the default grid. */
  lemma DefaultIndices(g: WorkspaceGrid)
    requires WithDefaults("") == Ok(g)
    ensures GetWorkspaceIndex(g, Workspace(0, 0)) == Ok(0)
    ensures GetWorkspaceIndex(g, Workspace(5760, 0)) == Ok(1)
    ensures GetWorkspaceIndex(g, Workspace(11520, 0)) == Ok(2)
    ensures GetWorkspaceIndex(g, Workspace(0, 1080)) == Ok(3)
    ensures GetWorkspaceIndex(g, Workspace(5760, 1080)) == Ok(4)
    ensures GetWorkspaceIndex(g, Workspace(11520, 1080)) == Ok(5)
    ensures GetWorkspaceIndex(g, Workspace(0, 2160)) == Ok(6)
    ensures GetWorkspaceIndex(g, Workspace(5760, 2160)) == Ok(7)
    ensures GetWorkspaceIndex(g, Workspace(11520, 2160)) == Ok(8)
  {
    for row := 0 to 3 {
      for column := 0 to 3 {
        IndexOfCell(g, row, column, 0, 0);
      }
    }
  }

  /** An offset one full monitor row past the last column is out of the table. */
  lemma DefaultPastLastColumn(g: WorkspaceGrid)
    requires WithDefaults("") == Ok(g)
    ensures GetWorkspaceIndex(g, Workspace(17280, 0)) == Err(IndexError)
  {
  }
}
