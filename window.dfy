/**
 * A window as the window manager lists it (easywindowswitcher/data_models/window.py):
 * one line of `wmctrl -l -G -x` output parsed into its geometry, class and title.
 */
module Windows {
  import opened Outcomes
  import opened Text
  import opened Seqs

  /** The attributes a `Window` object ends up with. The direct constructor
      path never assigns `id` and `height`, so those are optional. */
  datatype Window = Window(
    id: Option<string>,
    xOffset: int,
    yOffset: int,
    width: int,
    height: Option<int>,
    windowClass: string,
    title: string)

  /** The truthiness test of `filter(None, ...)` on strings. */
  predicate NonEmpty(s: string)
  {
    s != []
  }

  /** The columns of a listing line: split on single spaces, empty strings dropped. */
  function Tokens(line: string): (r: seq<string>)
    ensures forall i :: 0 <= i < |r| ==> IsToken(r[i])
  {
    FilterSound(NonEmpty, Split(line, " "));
    SplitPiecesAvoid(line, ' ');
    Filter(NonEmpty, Split(line, " "))
  }

  /** Python's slice `s[n:]`, which is empty when `n` is past the end. */
  function Drop<T>(s: seq<T>, n: nat): seq<T>
  {
    if n <= |s| then s[n..] else []
  }

  /** `_process_raw_config` once the line is split into columns: column 0 is the
      id, 2-5 are x, y, width and height, 6 is the class, 1 and 7 are skipped and
      8 onwards is the title. A missing column raises IndexError and a non-integer
      geometry column ValueError, in the order the columns are read. */
  function ParseColumns(t: seq<string>): (r: Result<Window>)
    ensures r.Ok? <==> |t| >= 7 && ParseInt(t[2]).Ok? && ParseInt(t[3]).Ok? && ParseInt(t[4]).Ok? && ParseInt(t[5]).Ok?
    ensures r.Ok? ==> r.value == Window(Some(t[0]), ParseInt(t[2]).value, ParseInt(t[3]).value,
                                        ParseInt(t[4]).value, Some(ParseInt(t[5]).value), t[6],
                                        Join(Drop(t, 8), " "))
    ensures r.Err? && |t| >= 7 ==> r.failure == ValueError
    ensures r.Err? && (forall k :: 2 <= k <= 5 && k < |t| ==> ParseInt(t[k]).Ok?) ==> r.failure == IndexError
  {
    if |t| <= 2 then Err(IndexError)
    else
      var xOffset :- ParseInt(t[2]);
      if |t| <= 3 then Err(IndexError)
      else
        var yOffset :- ParseInt(t[3]);
        if |t| <= 4 then Err(IndexError)
        else
          var width :- ParseInt(t[4]);
          if |t| <= 5 then Err(IndexError)
          else
            var height :- ParseInt(t[5]);
            if |t| <= 6 then Err(IndexError)
            else Ok(Window(Some(t[0]), xOffset, yOffset, width, Some(height), t[6], Join(Drop(t, 8), " ")))
  }

  /** `_process_raw_config`. */
  function ParseWindowConfig(rawConfig: string): (r: Result<Window>)
    ensures r.Ok? ==> r.value.id.Some? && IsToken(r.value.id.value) && r.value.height.Some?
    ensures r.Ok? ==> IsToken(r.value.windowClass)
  {
    ParseColumns(Tokens(rawConfig))
  }

  /** `Window.__init__`: a non-empty `raw_config` is parsed; otherwise the keyword
      arguments are stored, except `id` and `height`, which stay unset. */
  function NewWindow(rawConfig: string, id: string, xOffset: int, yOffset: int, height: int,
                     width: int, windowClass: string, title: string): (r: Result<Window>)
    ensures rawConfig == [] <==> r.Ok? && r.value.id.None?
    ensures rawConfig == [] ==>
      r.Ok? && r.value.height.None? && r.value.xOffset == xOffset && r.value.yOffset == yOffset
      && r.value.width == width && r.value.windowClass == windowClass && r.value.title == title
    ensures rawConfig != [] ==> r == ParseWindowConfig(rawConfig)
  {
    if rawConfig != [] then ParseWindowConfig(rawConfig)
    else Ok(Window(None, xOffset, yOffset, width, None, windowClass, title))
  }

  // ---------------------------------------------------------------- tokenising

  /** What wmctrl prints in one column: non-empty and free of spaces. */
  predicate IsToken(s: string)
  {
    s != [] && ' ' !in s
  }

  function Spaces(n: nat): (r: string)
    ensures |r| == n && forall i :: 0 <= i < n ==> r[i] == ' '
  {
    if n == 0 then [] else " " + Spaces(n - 1)
  }

  lemma TokensOfEmpty()
    ensures Tokens([]) == []
  {
    assert Split([], " ") == [[]];
  }

  /** Columns joined by single spaces are tokenised back into the same columns. */
  lemma {:induction false} TokensOfJoin(ts: seq<string>)
    requires forall i :: 0 <= i < |ts| ==> IsToken(ts[i])
    ensures Tokens(Join(ts, " ")) == ts
  {
    if |ts| == 0 {
      TokensOfEmpty();
    } else if |ts| == 1 {
      SplitWithoutChar(ts[0], ' ');
    } else {
      var rest := Join(ts[1..], " ");
      SplitWithoutChar(ts[0], ' ');
      SplitAtChar(ts[0], ' ', rest);
      FilterConcat(NonEmpty, Split(ts[0], " "), Split(rest, " "));
      TokensOfJoin(ts[1..]);
      assert ts == [ts[0]] + ts[1..];
    }
  }

  /** Any run of spaces separates columns exactly as one space does. */
  lemma {:induction false} TokensAroundSpaces(a: string, n: nat, b: string)
    requires n >= 1
    ensures Tokens(a + Spaces(n) + b) == Tokens(a) + Tokens(b)
    ensures Tokens(a + Spaces(n) + b) == Tokens(a + " " + b)
    decreases n
  {
    var rest := Spaces(n - 1) + b;
    assert a + Spaces(n) + b == a + [' '] + rest;
    SplitAtChar(a, ' ', rest);
    FilterConcat(NonEmpty, Split(a, " "), Split(rest, " "));
    if n == 1 {
      assert rest == b;
    } else {
      TokensAroundSpaces([], n - 1, b);
      TokensOfEmpty();
      assert [] + Spaces(n - 1) + b == rest;
    }
    SplitAtChar(a, ' ', b);
    FilterConcat(NonEmpty, Split(a, " "), Split(b, " "));
  }

  // ---------------------------------------------------------------- round trip

  /** A line in the layout of `wmctrl -l -G -x`, columns separated by single spaces. */
  function ListingLine(id: string, desktop: string, xOffset: int, yOffset: int, width: int,
                       height: int, windowClass: string, host: string, titleWords: seq<string>): string
  {
    Join([id, desktop, IntToString(xOffset), IntToString(yOffset), IntToString(width),
          IntToString(height), windowClass, host] + titleWords, " ")
  }

  lemma IntToStringIsToken(n: int)
    ensures IsToken(IntToString(n))
  {
    var s := IntToString(n);
    forall i | 0 <= i < |s|
      ensures s[i] != ' '
    {
      assert IsDigit(s[i]) || s[i] == '-';
    }
  }

  lemma JoinHead(ts: seq<string>)
    requires |ts| >= 1
    ensures |Join(ts, " ")| >= |ts[0]|
  {
  }

  /** Columns joined by single spaces parse field by field: the id from
      column 0, the geometry from columns 2-5, the class from column 6 and the
      title from the columns after the eighth. */
  lemma ParseJoinedColumns(ts: seq<string>, x: int, y: int, w: int, h: int)
    requires |ts| >= 8 && forall i :: 0 <= i < |ts| ==> IsToken(ts[i])
    requires ParseInt(ts[2]) == Ok(x) && ParseInt(ts[3]) == Ok(y) && ParseInt(ts[4]) == Ok(w) && ParseInt(ts[5]) == Ok(h)
    ensures NewWindow(Join(ts, " "), "", 0, 0, 0, 0, "", "")
         == Ok(Window(Some(ts[0]), x, y, w, Some(h), ts[6], Join(ts[8..], " ")))
  {
    TokensOfJoin(ts);
    JoinHead(ts);
  }

  /** Parsing a listing line recovers every column it was printed from; the
      desktop index and the host name are dropped and the title words are
      joined by single spaces. */
  lemma ParseListingLine(id: string, desktop: string, xOffset: int, yOffset: int, width: int,
                         height: int, windowClass: string, host: string, titleWords: seq<string>)
    requires IsToken(id) && IsToken(desktop) && IsToken(windowClass) && IsToken(host)
    requires forall i :: 0 <= i < |titleWords| ==> IsToken(titleWords[i])
    ensures NewWindow(ListingLine(id, desktop, xOffset, yOffset, width, height, windowClass, host, titleWords),
                      "", 0, 0, 0, 0, "", "")
         == Ok(Window(Some(id), xOffset, yOffset, width, Some(height), windowClass, Join(titleWords, " ")))
  {
    IntToStringIsToken(xOffset);
    IntToStringIsToken(yOffset);
    IntToStringIsToken(width);
    IntToStringIsToken(height);
    ParseIntToString(xOffset);
    ParseIntToString(yOffset);
    ParseIntToString(width);
    ParseIntToString(height);
    ListingOfColumns(id, desktop, IntToString(xOffset), IntToString(yOffset), IntToString(width),
                     IntToString(height), windowClass, host, titleWords, xOffset, yOffset, width, height);
  }

  lemma ListingOfColumns(c0: string, c1: string, c2: string, c3: string, c4: string, c5: string,
                         c6: string, c7: string, titleWords: seq<string>, x: int, y: int, w: int, h: int)
    requires IsToken(c0) && IsToken(c1) && IsToken(c2) && IsToken(c3)
    requires IsToken(c4) && IsToken(c5) && IsToken(c6) && IsToken(c7)
    requires forall i :: 0 <= i < |titleWords| ==> IsToken(titleWords[i])
    requires ParseInt(c2) == Ok(x) && ParseInt(c3) == Ok(y) && ParseInt(c4) == Ok(w) && ParseInt(c5) == Ok(h)
    ensures NewWindow(Join([c0, c1, c2, c3, c4, c5, c6, c7] + titleWords, " "), "", 0, 0, 0, 0, "", "")
         == Ok(Window(Some(c0), x, y, w, Some(h), c6, Join(titleWords, " ")))
  {
    ListingColumns(c0, c1, c2, c3, c4, c5, c6, c7, titleWords);
    ParseJoinedColumns([c0, c1, c2, c3, c4, c5, c6, c7] + titleWords, x, y, w, h);
  }

  lemma ListingColumns(c0: string, c1: string, c2: string, c3: string, c4: string, c5: string,
                       c6: string, c7: string, titleWords: seq<string>)
    requires IsToken(c0) && IsToken(c1) && IsToken(c2) && IsToken(c3)
    requires IsToken(c4) && IsToken(c5) && IsToken(c6) && IsToken(c7)
    requires forall i :: 0 <= i < |titleWords| ==> IsToken(titleWords[i])
    ensures var ts := [c0, c1, c2, c3, c4, c5, c6, c7] + titleWords;
      (forall i :: 0 <= i < |ts| ==> IsToken(ts[i])) && ts[8..] == titleWords
      && ts[0] == c0 && ts[2] == c2 && ts[3] == c3 && ts[4] == c4 && ts[5] == c5 && ts[6] == c6
  {
    var head := [c0, c1, c2, c3, c4, c5, c6, c7];
    var ts := head + titleWords;
    forall i | 0 <= i < |ts|
      ensures IsToken(ts[i])
    {
      if i >= 8 { assert ts[i] == titleWords[i - 8]; } else { assert ts[i] == head[i]; }
    }
  }

  /** Exactly eight columns leave the title empty. */
  lemma UntitledListingLine(id: string, desktop: string, xOffset: int, yOffset: int, width: int,
                            height: int, windowClass: string, host: string)
    requires IsToken(id) && IsToken(desktop) && IsToken(windowClass) && IsToken(host)
    ensures var r := NewWindow(ListingLine(id, desktop, xOffset, yOffset, width, height, windowClass, host, []),
                               "", 0, 0, 0, 0, "", "");
      r.Ok? && r.value.title == []
  {
    ParseListingLine(id, desktop, xOffset, yOffset, width, height, windowClass, host, []);
  }

  /** A run of spaces anywhere in a line, the title included, reads as one space. */
  lemma SpaceRunsCollapse(prefix: string, n: nat, rest: string)
    requires n >= 1
    ensures ParseWindowConfig(prefix + Spaces(n) + rest) == ParseWindowConfig(prefix + " " + rest)
  {
    TokensAroundSpaces(prefix, n, rest);
  }

  lemma TokensOfWord(w: string)
    requires IsToken(w)
    ensures Tokens(w) == [w]
  {
    SplitWithoutChar(w, ' ');
  }

  /** Nine columns separated by the runs of spaces of the documented example line. */
  lemma DocumentedSpacing(c0: string, c1: string, c2: string, c3: string, c4: string,
                          c5: string, c6: string, c7: string, c8: string)
    requires IsToken(c0) && IsToken(c1) && IsToken(c2) && IsToken(c3) && IsToken(c4)
    requires IsToken(c5) && IsToken(c6) && IsToken(c7) && IsToken(c8)
    ensures Tokens(c0 + "  " + c1 + " " + c2 + " " + c3 + "   " + c4 + " " + c5 + " " + c6 + "  " + c7 + " " + c8)
         == [c0, c1, c2, c3, c4, c5, c6, c7, c8]
  {
    assert Spaces(1) == " " && Spaces(2) == "  " && Spaces(3) == "   ";
    var p1 := c0 + "  " + c1;
    var p2 := p1 + " " + c2;
    var p3 := p2 + " " + c3;
    var p4 := p3 + "   " + c4;
    var p5 := p4 + " " + c5;
    var p6 := p5 + " " + c6;
    var p7 := p6 + "  " + c7;
    TokensOfWord(c0);
    TokensAroundSpaces(c0, 2, c1); TokensOfWord(c1);
    assert Tokens(p1) == [c0, c1];
    TokensAroundSpaces(p1, 1, c2); TokensOfWord(c2);
    assert Tokens(p2) == [c0, c1, c2];
    TokensAroundSpaces(p2, 1, c3); TokensOfWord(c3);
    assert Tokens(p3) == [c0, c1, c2, c3];
    TokensAroundSpaces(p3, 3, c4); TokensOfWord(c4);
    assert Tokens(p4) == [c0, c1, c2, c3, c4];
    TokensAroundSpaces(p4, 1, c5); TokensOfWord(c5);
    assert Tokens(p5) == [c0, c1, c2, c3, c4, c5];
    TokensAroundSpaces(p5, 1, c6); TokensOfWord(c6);
    assert Tokens(p6) == [c0, c1, c2, c3, c4, c5, c6];
    TokensAroundSpaces(p6, 2, c7); TokensOfWord(c7);
    assert Tokens(p7) == [c0, c1, c2, c3, c4, c5, c6, c7];
    TokensAroundSpaces(p7, 1, c8); TokensOfWord(c8);
  }

  /** Nine columns in the documented spacing parse field by field. */
  lemma SpacedColumns(c0: string, c1: string, c2: string, c3: string, c4: string,
                      c5: string, c6: string, c7: string, c8: string, x: int, y: int, w: int, h: int)
    requires IsToken(c0) && IsToken(c1) && IsToken(c2) && IsToken(c3) && IsToken(c4)
    requires IsToken(c5) && IsToken(c6) && IsToken(c7) && IsToken(c8)
    requires ParseInt(c2) == Ok(x) && ParseInt(c3) == Ok(y) && ParseInt(c4) == Ok(w) && ParseInt(c5) == Ok(h)
    ensures NewWindow(c0 + "  " + c1 + " " + c2 + " " + c3 + "   " + c4 + " " + c5 + " " + c6 + "  " + c7 + " " + c8,
                      "", 0, 0, 0, 0, "", "")
         == Ok(Window(Some(c0), x, y, w, Some(h), c6, c8))
  {
    DocumentedSpacing(c0, c1, c2, c3, c4, c5, c6, c7, c8);
    NineColumns(c0, c1, c2, c3, c4, c5, c6, c7, c8, x, y, w, h);
  }

  lemma NineColumns(c0: string, c1: string, c2: string, c3: string, c4: string,
                    c5: string, c6: string, c7: string, c8: string, x: int, y: int, w: int, h: int)
    requires ParseInt(c2) == Ok(x) && ParseInt(c3) == Ok(y) && ParseInt(c4) == Ok(w) && ParseInt(c5) == Ok(h)
    ensures ParseColumns([c0, c1, c2, c3, c4, c5, c6, c7, c8]) == Ok(Window(Some(c0), x, y, w, Some(h), c6, c8))
  {
    assert Drop([c0, c1, c2, c3, c4, c5, c6, c7, c8], 8) == [c8];
  }

  /** The example line of the source's documentation, written column by column
      with the runs of spaces between the columns. */
  lemma DocumentedLine()
    ensures NewWindow("0x05000006" + "  " + "0" + " " + "1920" + " " + "24" + "   " + "1920" + " " + "1056" + " "
                      + "gnome-terminal-server.Gnome-terminal" + "  " + "devin-Desktop" + " " + "Terminal",
                      "", 0, 0, 0, 0, "", "")
         == Ok(Window(Some("0x05000006"), 1920, 24, 1920, Some(1056), "gnome-terminal-server.Gnome-terminal", "Terminal"))
  {
    DocumentedNumbers();
    DocumentedTokens();
    SpacedColumns("0x05000006", "0", "1920", "24", "1920", "1056", "gnome-terminal-server.Gnome-terminal",
                  "devin-Desktop", "Terminal", 1920, 24, 1920, 1056);
  }

  lemma DocumentedNumbers()
    ensures ParseInt("1920") == Ok(1920) && ParseInt("24") == Ok(24) && ParseInt("1056") == Ok(1056)
  {
    DocumentedDigits();
    ParseIntToString(1920);
    ParseIntToString(24);
    ParseIntToString(1056);
  }

  lemma DocumentedDigits()
    ensures IntToString(1920) == "1920" && IntToString(24) == "24" && IntToString(1056) == "1056"
  {
  }

  lemma DocumentedTokens()
    ensures IsToken("0x05000006") && IsToken("0") && IsToken("1920") && IsToken("24") && IsToken("1056")
    ensures IsToken("gnome-terminal-server.Gnome-terminal") && IsToken("devin-Desktop") && IsToken("Terminal")
  {
  }
}
