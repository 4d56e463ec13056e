/** A workspace of the window manager's desktop, located by the offset of its
    top-left pixel, and the `"X,Y"` text `wmctrl -d` writes for it. */
module Workspaces {
  import opened Outcomes
  import opened Text

  /** The source keeps the horizontal offset in `width` and the vertical one in
      `height`: for three 1920x1080 monitors, `0,0` is the first workspace and
      `5760,0` the second. */
  datatype Workspace = Workspace(width: int, height: int)

  /** Splitting `"X,Y"` on commas: the first component must convert, then a
      second one must exist and convert; components after the second are ignored. */
  function ParseWorkspaceDimensions(raw: string): (r: Result<Workspace>)
    ensures var parts := Split(raw, ",");
      r.Ok? <==> ParseInt(parts[0]).Ok? && |parts| >= 2 && ParseInt(parts[1]).Ok?
    ensures var parts := Split(raw, ",");
      r.Ok? ==> ParseInt(parts[0]) == Ok(r.value.width) && ParseInt(parts[1]) == Ok(r.value.height)
    ensures r.Err? ==>
      (r.failure == IndexError <==> ParseInt(Split(raw, ",")[0]).Ok? && |Split(raw, ",")| < 2)
  {
    var parts := Split(raw, ",");
    var width :- ParseInt(parts[0]);
    if |parts| < 2 then Err(IndexError)
    else
      var height :- ParseInt(parts[1]);
      Ok(Workspace(width, height))
  }

  /** `Workspace(raw_dimensions, width, height)`: non-empty text is parsed, and
      otherwise the offsets are stored as given. */
  function NewWorkspace(rawDimensions: string, width: int, height: int): (r: Result<Workspace>)
    ensures rawDimensions == [] ==> r == Ok(Workspace(width, height))
    ensures rawDimensions != [] ==> r == ParseWorkspaceDimensions(rawDimensions)
  {
    if rawDimensions != [] then ParseWorkspaceDimensions(rawDimensions)
    else Ok(Workspace(width, height))
  }

  /** `repr(workspace)`: the two offsets written by `str`, separated by the only comma. */
  function Repr(ws: Workspace): (r: string)
    ensures Split(r, ",") == [IntToString(ws.width), IntToString(ws.height)]
  {
    var x := IntToString(ws.width);
    var y := IntToString(ws.height);
    CanonicalAvoids(x, ',');
    CanonicalAvoids(y, ',');
    SplitAtChar(x, ',', y);
    SplitWithoutChar(x, ',');
    SplitWithoutChar(y, ',');
    x + "," + y
  }

  /** Parsing what `repr` writes gives the workspace back. */
  lemma ParseRepr(ws: Workspace)
    ensures NewWorkspace(Repr(ws), 0, 0) == Ok(ws)
  {
    ParseIntToString(ws.width);
    ParseIntToString(ws.height);
  }

  /** For offsets written the way `str` writes integers, `repr` of the parsed
      workspace is the text it was parsed from. */
  lemma ReprParse(x: string, y: string)
    requires IsCanonicalInt(x) && IsCanonicalInt(y)
    ensures var r := NewWorkspace(x + "," + y, 0, 0);
      r.Ok? && Repr(r.value) == x + "," + y
  {
    CanonicalAvoids(x, ',');
    CanonicalAvoids(y, ',');
    SplitAtChar(x, ',', y);
    SplitWithoutChar(x, ',');
    SplitWithoutChar(y, ',');
    IntToStringOfParse(x);
    IntToStringOfParse(y);
  }

  /** Text without a comma never makes a workspace. */
  lemma NoCommaFails(raw: string)
    requires raw != [] && ',' !in raw
    ensures NewWorkspace(raw, 0, 0).Err?
  {
    SplitWithoutChar(raw, ',');
  }

  /** A component that `int` rejects makes the whole parse fail with ValueError. */
  lemma NonIntegerFails(x: string, y: string)
    requires ',' !in x && ',' !in y
    requires ParseInt(x).Err? || ParseInt(y).Err?
    ensures NewWorkspace(x + "," + y, 0, 0) == Err(ValueError)
  {
    SplitAtChar(x, ',', y);
    SplitWithoutChar(x, ',');
    SplitWithoutChar(y, ',');
  }

  /** The offsets the source names as examples. */
  lemma ExampleOffsets()
    ensures NewWorkspace("5760,0", 0, 0) == Ok(Workspace(5760, 0))
  {
    ExampleDigits();
    ParseRepr(Workspace(5760, 0));
  }

  lemma ExampleDigits()
    ensures IntToString(5760) + "," + IntToString(0) == "5760,0"
  {
    assert IntToString(5760) == "5760";
    assert IntToString(0) == "0";
  }
}
