/** The parsers for what `wmctrl` prints: the desktop line of `wmctrl -d` and
    the window listing of `wmctrl -l -G -x`. Running the command is not part of
    this model; its output is the parsers' input. */
module WMCtrl {
  import opened Outcomes
  import opened Text
  import opened Seqs
  import opened Windows
  import opened Workspaces
  import opened WorkspaceGrids

  // ------------------------------------------------------------ wmctrl -d

  /** `_parse_system_config`: the text after the first `DG:` is cut at `VP:`;
      the stripped piece before it is the grid's `"WxH"` extent, and the
      stripped piece after it, up to `WA:`, is the current workspace's `"X,Y"`
      offset. */
  function ParseSystemConfig(systemConfig: string): (r: Result<(WorkspaceGrid, Workspace)>)
    ensures !Contains(systemConfig, "DG:") ==> r == Err(IndexError)
    ensures r.Ok? ==> WellFormed(r.value.0) && r.value.0.monitorWidth == MonitorWidth
  {
    SplitHasSecondPiece(systemConfig, "DG:");
    var afterGrid := Split(systemConfig, "DG:");
    if |afterGrid| < 2 then Err(IndexError)
    else
      var firstSplits := Split(afterGrid[1], "VP:");
      var grid :- WithDefaults(Strip(firstSplits[0]));
      if |firstSplits| < 2 then Err(IndexError)
      else
        var current :- NewWorkspace(Strip(Split(firstSplits[1], "WA:")[0]), 0, 0);
        Ok((grid, current))
  }

  lemma Markers()
    ensures IsMarker("DG:") && IsMarker("VP:") && IsMarker("WA:")
    ensures "DG:" != "VP:" && "DG:" != "WA:" && "VP:" != "WA:"
  {
    assert "DG:"[2] == ':' && "DG:"[..2] == "DG";
    assert "VP:"[2] == ':' && "VP:"[..2] == "VP";
    assert "WA:"[2] == ':' && "WA:"[..2] == "WA";
    assert "DG:"[0] != "VP:"[0] && "DG:"[0] != "WA:"[0] && "VP:"[0] != "WA:"[0];
  }

  /** When the text before `DG:` and the grid and workspace fields hold no
      colon, the grid is parsed from exactly the stripped grid field and the
      workspace from exactly the stripped workspace field, whatever follows
      `WA:`. */
  lemma SystemConfigFields(pre: string, g: string, w: string, rest: string)
    requires ':' !in pre && ':' !in g && ':' !in w
    ensures var r := ParseSystemConfig(pre + "DG:" + g + "VP:" + w + "WA:" + rest);
      var grid := WithDefaults(Strip(g));
      var current := NewWorkspace(Strip(w), 0, 0);
      (r.Ok? <==> grid.Ok? && current.Ok?)
      && (r.Ok? ==> r.value == (grid.value, current.value))
      && (r.Err? ==> r.failure == if grid.Err? then grid.failure else current.failure)
  {
    Markers();
    var tail := w + "WA:" + rest;
    var b1 := g + "VP:" + tail;
    assert pre + "DG:" + g + "VP:" + w + "WA:" + rest == pre + "DG:" + b1;
    SplitAtMarker(pre, "DG:", b1);
    SplitPastMarker(g, "VP:", tail, "DG:");
    SplitPastMarker(w, "WA:", rest, "DG:");
    var rest1 := Split(rest, "DG:")[0];
    var tail1 := w + "WA:" + rest1;
    assert Split(pre + "DG:" + b1, "DG:")[1] == g + "VP:" + tail1;
    SplitAtMarker(g, "VP:", tail1);
    SplitPastMarker(w, "WA:", rest1, "VP:");
    var rest2 := Split(rest1, "VP:")[0];
    assert Split(g + "VP:" + tail1, "VP:")[1] == w + "WA:" + rest2;
    SplitAtMarker(w, "WA:", rest2);
    assert Split(w + "WA:" + rest2, "WA:")[0] == w;
  }

  /** Output without a `DG:` field, the empty output included, is rejected. */
  lemma NoGridFieldFails(systemConfig: string)
    requires |systemConfig| < 3
    ensures ParseSystemConfig(systemConfig) == Err(IndexError)
  {
    NotContainsShort(systemConfig, "DG:");
  }

  /** A `DG:` field with no `VP:` after it fails with IndexError, but only
      once the grid extent has been parsed: a bad extent fails first. */
  lemma NoWorkspaceFieldFails(pre: string, g: string)
    requires ':' !in pre && ':' !in g
    ensures var grid := WithDefaults(Strip(g));
      ParseSystemConfig(pre + "DG:" + g) == if grid.Ok? then Err(IndexError) else Err(grid.failure)
  {
    Markers();
    SplitAtMarker(pre, "DG:", g);
    SplitColonFree(g, "DG:");
    SplitColonFree(g, "VP:");
  }

  /** The desktop line of the source's comment: a 17280x3240 desktop whose
      current workspace starts at 5760,0. */
  lemma ExampleSystemConfig()
    ensures var r := ParseSystemConfig("0  * " + "DG:" + " 17280x3240  " + "VP:" + " 5760,0  " + "WA:" + " 0,24 5760x1056  N/A");
      r.Ok? && r.value.0.width == 17280 && r.value.0.height == 3240 && r.value.1 == Workspace(5760, 0)
  {
    ExampleFields();
    SystemConfigFields("0  * ", " 17280x3240  ", " 5760,0  ", " 0,24 5760x1056  N/A");
    ExampleGridField();
    ExampleWorkspaceField();
  }

  /** The viewport field of the example line. */
  lemma ExampleWorkspaceField()
    ensures NewWorkspace(Strip(" 5760,0  "), 0, 0) == Ok(Workspace(5760, 0))
  {
    Padded("5760,0");
    assert " " + "5760,0" + "  " == " 5760,0  ";
    ExampleOffsets();
  }

  /** The grid field of the example lines. */
  lemma ExampleGridField()
    ensures var grid := WithDefaults(Strip(" 17280x3240  "));
      grid.Ok? && grid.value.width == 17280 && grid.value.height == 3240
  {
    Padded("17280x3240");
    assert " " + "17280x3240" + "  " == " 17280x3240  ";
    ExampleGrid();
  }

  lemma ExampleFields()
    ensures ':' !in "0  * " && ':' !in " 17280x3240  " && ':' !in " 5760,0  "
    ensures ':' !in "1  - " && ':' !in " N/A  "
  {
  }

  /** A desktop that is not the current one has `N/A` as its viewport, which
      `int()` rejects: such a line fails with ValueError. */
  lemma NonCurrentDesktopFails()
    ensures ParseSystemConfig("1  - " + "DG:" + " 17280x3240  " + "VP:" + " N/A  " + "WA:" + " N/A")
         == Err(ValueError)
  {
    ExampleFields();
    SystemConfigFields("1  - ", " 17280x3240  ", " N/A  ", " N/A");
    ExampleGridField();
    NotAvailableField();
  }

  /** The viewport field of a desktop that is not the current one. */
  lemma NotAvailableField()
    ensures NewWorkspace(Strip(" N/A  "), 0, 0) == Err(ValueError)
  {
    Padded("N/A");
    assert " " + "N/A" + "  " == " N/A  ";
    NotAvailableFails();
    SplitWithoutChar("N/A", ',');
  }

  /** `int("N/A")` raises ValueError. */
  lemma NotAvailableFails()
    ensures ParseInt("N/A") == Err(ValueError)
  {
    assert IsForeign('N') && 'N' in "N/A";
    ForeignCharFails("N/A", 'N');
  }

  lemma Padded(t: string)
    requires t != [] && !IsSpace(t[0]) && !IsSpace(t[|t| - 1])
    ensures Strip(" " + t + "  ") == t
  {
    assert AllSpace(" ") && AllSpace("  ");
    StripSurrounded(" ", t, "  ");
  }

  lemma ExampleGrid()
    ensures var r := WithDefaults("17280x3240");
      r.Ok? && r.value.width == 17280 && r.value.height == 3240
  {
    ExampleGridDigits();
    ParseIntToString(17280);
    ParseIntToString(3240);
    ParseExtent(17280, 3240);
  }

  lemma ExampleGridDigits()
    ensures IntToString(17280) + "x" + IntToString(3240) == "17280x3240"
  {
    ExampleWidthDigits();
    ExampleHeightDigits();
  }

  lemma ExampleWidthDigits()
    ensures IntToString(17280) == "17280"
  {
  }

  lemma ExampleHeightDigits()
    ensures IntToString(3240) == "3240"
  {
  }

  // ------------------------------------------------------- wmctrl -l -G -x

  /** `Window(raw_config=line)` with every other argument at its default. */
  function WindowOfLine(line: string): (r: Result<Window>)
    ensures line == [] ==> r == Ok(Window(None, 0, 0, 0, None, "", ""))
    ensures line != [] ==> r == ParseWindowConfig(line)
  {
    NewWindow(line, "", 0, 0, 0, 0, "", "")
  }

  /** A line is kept when it has a window class and a positive vertical
      offset: entries without a class (such as a launcher) and undecorated
      ones at offset 0 are not application windows. */
  predicate IsApplicationWindow(w: Window)
  {
    w.windowClass != "N/A" && w.yOffset > 0
  }

  /** Every line parsed, in order; the first line that fails fails the whole
      listing. */
  function ParseLines(parse: string -> Result<Window>, lines: seq<string>): (r: Result<seq<Window>>)
    ensures r.Ok? ==> |r.value| == |lines|
  {
    if lines == [] then Ok([])
    else
      var parsed :- ParseLines(parse, lines[..|lines| - 1]);
      var window :- parse(lines[|lines| - 1]);
      Ok(parsed + [window])
  }

  /** The listing parses exactly when every line does, and then its windows are
      the lines' windows, one per line and in the same order. */
  lemma {:induction false} ParseLinesEach(parse: string -> Result<Window>, lines: seq<string>)
    ensures ParseLines(parse, lines).Ok? <==> forall i :: 0 <= i < |lines| ==> parse(lines[i]).Ok?
    ensures ParseLines(parse, lines).Ok? ==>
      forall i :: 0 <= i < |lines| ==> ParseLines(parse, lines).value[i] == parse(lines[i]).value
  {
    if lines != [] {
      var init := lines[..|lines| - 1];
      ParseLinesEach(parse, init);
      assert forall i :: 0 <= i < |init| ==> init[i] == lines[i];
    }
  }

  /** Each line of the listing makes a window. */
  predicate EveryLineParses(lines: seq<string>)
  {
    forall i :: 0 <= i < |lines| ==> WindowOfLine(lines[i]).Ok?
  }

  /** The listing parses exactly when each of its lines does. */
  lemma LinesParse(lines: seq<string>)
    ensures ParseLines(WindowOfLine, lines).Ok? <==> EveryLineParses(lines)
  {
    ParseLinesEach(WindowOfLine, lines);
  }

  /** `_parse_windows_config`, as a value: the lines of the listing parsed and
      then filtered down to application windows. */
  function WindowsFromConfig(windowsConfig: string): (r: Result<seq<Window>>)
    ensures r.Ok? <==> EveryLineParses(Split(windowsConfig, "\n"))
    ensures r.Ok? ==> |r.value| <= |Split(windowsConfig, "\n")|
  {
    LinesParse(Split(windowsConfig, "\n"));
    var parsed := ParseLines(WindowOfLine, Split(windowsConfig, "\n"));
    if parsed.Err? then Err(parsed.failure) else Ok(Filter(IsApplicationWindow, parsed.value))
  }

  /** `_parse_windows_config`: one pass over the lines, appending each
      application window. */
  method ParseWindowsConfig(windowsConfig: string) returns (r: Result<seq<Window>>)
    ensures r == WindowsFromConfig(windowsConfig)
  {
    var splitWindowsConfig := Split(windowsConfig, "\n");
    var windows: seq<Window> := [];
    ghost var parsed: seq<Window> := [];
    var i := 0;
    while i < |splitWindowsConfig|
      invariant 0 <= i <= |splitWindowsConfig|
      invariant ParseLines(WindowOfLine, splitWindowsConfig[..i]) == Ok(parsed)
      invariant windows == Filter(IsApplicationWindow, parsed)
    {
      var window := WindowOfLine(splitWindowsConfig[i]);
      if window.Err? {
        PrefixFailure(WindowOfLine, splitWindowsConfig, i);
        return Err(window.failure);
      }
      assert splitWindowsConfig[..i + 1][..i] == splitWindowsConfig[..i];
      FilterConcat(IsApplicationWindow, parsed, [window.value]);
      parsed := parsed + [window.value];
      if window.value.windowClass != "N/A" && window.value.yOffset > 0 {
        windows := windows + [window.value];
      }
      i := i + 1;
    }
    assert splitWindowsConfig[..i] == splitWindowsConfig;
    r := Ok(windows);
  }

  /** A line that fails after lines that parse fails the whole listing with
      its own failure: the first failing line decides the error. */
  lemma {:induction false} PrefixFailure(parse: string -> Result<Window>, lines: seq<string>, i: nat)
    requires i < |lines| && ParseLines(parse, lines[..i]).Ok? && parse(lines[i]).Err?
    ensures ParseLines(parse, lines) == Err(parse(lines[i]).failure)
    decreases |lines|
  {
    if i == |lines| - 1 {
      assert lines[..|lines| - 1] == lines[..i];
    } else {
      var init := lines[..|lines| - 1];
      assert init[..i] == lines[..i] && init[i] == lines[i];
      PrefixFailure(parse, init, i);
    }
  }

  /** Parsing two listings one after the other is parsing them together. */
  lemma {:induction false} ParseLinesConcat(parse: string -> Result<Window>, a: seq<string>, b: seq<string>)
    requires ParseLines(parse, a).Ok? && ParseLines(parse, b).Ok?
    ensures ParseLines(parse, a + b) == Ok(ParseLines(parse, a).value + ParseLines(parse, b).value)
    decreases |b|
  {
    var pa := ParseLines(parse, a).value;
    if b == [] {
      assert a + b == a && pa + [] == pa;
    } else {
      var init := b[..|b| - 1];
      var last := b[|b| - 1];
      assert (a + b)[..|a + b| - 1] == a + init;
      assert (a + b)[|a + b| - 1] == last;
      assert forall i :: 0 <= i < |init| ==> init[i] == b[i];
      ParseLinesConcat(parse, a, init);
      var pi := ParseLines(parse, init).value;
      assert pa + pi + [parse(last).value] == pa + (pi + [parse(last).value]);
    }
  }

  // ------------------------------------------------------------ properties

  /** Every window returned is an application window, and one of the windows
      the lines parse to. */
  lemma WindowsSound(windowsConfig: string)
    requires WindowsFromConfig(windowsConfig).Ok?
    ensures var parsed := ParseLines(WindowOfLine, Split(windowsConfig, "\n")).value;
      var r := WindowsFromConfig(windowsConfig).value;
      forall i :: 0 <= i < |r| ==> IsApplicationWindow(r[i]) && r[i] in parsed
  {
    FilterSound(IsApplicationWindow, ParseLines(WindowOfLine, Split(windowsConfig, "\n")).value);
  }

  /** Every line that parses to an application window is in the result. */
  lemma WindowsComplete(windowsConfig: string)
    requires WindowsFromConfig(windowsConfig).Ok?
    ensures var lines := Split(windowsConfig, "\n");
      forall k :: 0 <= k < |lines| && WindowOfLine(lines[k]).Ok? && IsApplicationWindow(WindowOfLine(lines[k]).value) ==>
        WindowOfLine(lines[k]).value in WindowsFromConfig(windowsConfig).value
  {
    KeepsEveryLine(WindowOfLine, Split(windowsConfig, "\n"));
  }

  lemma KeepsEveryLine(parse: string -> Result<Window>, lines: seq<string>)
    requires ParseLines(parse, lines).Ok?
    ensures forall k :: 0 <= k < |lines| && parse(lines[k]).Ok? && IsApplicationWindow(parse(lines[k]).value) ==>
      parse(lines[k]).value in Filter(IsApplicationWindow, ParseLines(parse, lines).value)
  {
    var parsed := ParseLines(parse, lines).value;
    ParseLinesEach(parse, lines);
    FilterComplete(IsApplicationWindow, parsed);
    forall k | 0 <= k < |lines| && parse(lines[k]).Ok? && IsApplicationWindow(parse(lines[k]).value)
      ensures parse(lines[k]).value in Filter(IsApplicationWindow, parsed)
    {
      assert parsed[k] == parse(lines[k]).value;
    }
  }

  /** The result keeps the order of the lines. */
  lemma WindowsInOrder(windowsConfig: string)
    requires WindowsFromConfig(windowsConfig).Ok?
    ensures IsSubsequence(WindowsFromConfig(windowsConfig).value, ParseLines(WindowOfLine, Split(windowsConfig, "\n")).value)
  {
    FilterIsSubsequence(IsApplicationWindow, ParseLines(WindowOfLine, Split(windowsConfig, "\n")).value);
  }

  /** An empty line parses without error, at vertical offset 0, and is dropped:
      empty output gives no windows. */
  lemma EmptyConfig()
    ensures WindowsFromConfig("") == Ok([])
  {
    assert Split("", "\n") == [""];
    var lines: seq<string> := [""];
    var blank := Window(None, 0, 0, 0, None, "", "");
    assert WindowOfLine("") == Ok(blank);
    assert lines[..0] == [];
    assert ParseLines(WindowOfLine, lines) == Ok([] + [blank]);
    assert Filter(IsApplicationWindow, [blank]) == [];
  }

  /** Two listings joined by a newline give the windows of the first, then
      those of the second. */
  lemma WindowsConcat(a: string, b: string)
    requires WindowsFromConfig(a).Ok? && WindowsFromConfig(b).Ok?
    ensures WindowsFromConfig(a + "\n" + b) == Ok(WindowsFromConfig(a).value + WindowsFromConfig(b).value)
  {
    SplitAtChar(a, '\n', b);
    assert a + "\n" + b == a + ['\n'] + b;
    ParseLinesConcat(WindowOfLine, Split(a, "\n"), Split(b, "\n"));
    FilterConcat(IsApplicationWindow, ParseLines(WindowOfLine, Split(a, "\n")).value,
                 ParseLines(WindowOfLine, Split(b, "\n")).value);
  }

  /** The newline that ends the listing changes nothing. */
  lemma TrailingNewlineDropped(a: string)
    requires WindowsFromConfig(a).Ok?
    ensures WindowsFromConfig(a + "\n") == WindowsFromConfig(a)
  {
    EmptyConfig();
    WindowsConcat(a, "");
    assert a + "\n" + "" == a + "\n";
    assert WindowsFromConfig(a).value + [] == WindowsFromConfig(a).value;
  }

  /** An empty line between two listings changes nothing. */
  lemma BlankLineDropped(a: string, b: string)
    requires WindowsFromConfig(a).Ok? && WindowsFromConfig(b).Ok?
    ensures WindowsFromConfig(a + "\n" + "\n" + b) == WindowsFromConfig(a + "\n" + b)
  {
    TrailingNewlineDropped(a);
    WindowsConcat(a + "\n", b);
    WindowsConcat(a, b);
  }

  /** A line of spaces only has no columns, so reading its id raises IndexError. */
  lemma SpacesFailWindow(n: nat)
    requires n >= 1
    ensures WindowOfLine(Spaces(n)) == Err(IndexError)
  {
    TokensAroundSpaces([], n, []);
    TokensOfEmpty();
    assert [] + Spaces(n) + [] == Spaces(n);
  }

  /** Unlike an empty line, a line of spaces after lines that parse fails the
      whole listing with IndexError, whatever follows it. */
  lemma SpaceLineFails(a: string, n: nat, b: string)
    requires n >= 1 && WindowsFromConfig(a).Ok?
    ensures WindowsFromConfig(a + "\n" + Spaces(n) + "\n" + b) == Err(IndexError)
  {
    var lines := Split(a, "\n") + [Spaces(n)] + Split(b, "\n");
    LineBetween(a, Spaces(n), b);
    var i := |Split(a, "\n")|;
    assert lines[..i] == Split(a, "\n") && lines[i] == Spaces(n);
    SpacesFailWindow(n);
    PrefixFailure(WindowOfLine, lines, i);
  }

  /** A line without a line feed, between two texts, is one line of the listing. */
  lemma LineBetween(a: string, m: string, b: string)
    requires '\n' !in m
    ensures Split(a + "\n" + m + "\n" + b, "\n") == Split(a, "\n") + [m] + Split(b, "\n")
  {
    assert a + "\n" + m + "\n" + b == a + ['\n'] + (m + ['\n'] + b);
    SplitAtChar(a, '\n', m + ['\n'] + b);
    SplitAtChar(m, '\n', b);
    SplitWithoutChar(m, '\n');
  }
}
