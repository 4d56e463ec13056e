/**
 * The parts of Python's `str` and `int` that the parsers rely on:
 * `str.split(sep)`, `sep.join(parts)`, `str.strip()`, `int(text)` and `str(n)`.
 */
module Text {
  import opened Outcomes

  // ---------------------------------------------------------------- split and join

  /** `s.split(sep)` for a non-empty separator: the pieces between the
      non-overlapping occurrences of `sep`, found scanning left to right. */
  function Split(s: string, sep: string): (r: seq<string>)
    requires sep != []
    ensures |r| >= 1
    decreases |s|
  {
    if |s| < |sep| then [s]
    else if s[..|sep|] == sep then [[]] + Split(s[|sep|..], sep)
    else
      var rest := Split(s[1..], sep);
      [[s[0]] + rest[0]] + rest[1..]
  }

  /** `sep.join(parts)`. */
  function Join(parts: seq<string>, sep: string): (r: string)
    ensures |parts| >= 1 ==> StartsWith(r, parts[0])
  {
    if |parts| == 0 then []
    else if |parts| == 1 then parts[0]
    else parts[0] + sep + Join(parts[1..], sep)
  }

  /** Joining the pieces of a split with the same separator gives back the text. */
  lemma {:induction false} JoinSplit(s: string, sep: string)
    requires sep != []
    ensures Join(Split(s, sep), sep) == s
    decreases |s|
  {
    if |s| >= |sep| {
      if s[..|sep|] == sep {
        var tail := s[|sep|..];
        JoinSplit(tail, sep);
        assert s == sep + tail;
        JoinAfterSeparator(Split(tail, sep), tail, sep);
      } else {
        var tail := s[1..];
        JoinSplit(tail, sep);
        assert s == [s[0]] + tail;
        JoinAfterChar(s[0], Split(tail, sep), tail, sep);
      }
    }
  }

  /** An empty first piece puts the separator in front of the rest. */
  lemma JoinAfterSeparator(rest: seq<string>, tail: string, sep: string)
    requires |rest| >= 1 && Join(rest, sep) == tail
    ensures Join([[]] + rest, sep) == sep + tail
  {
    JoinCons([], rest, sep);
  }

  /** A character put in front of the first piece comes first in the joined text. */
  lemma JoinAfterChar(c: char, rest: seq<string>, tail: string, sep: string)
    requires |rest| >= 1 && Join(rest, sep) == tail
    ensures Join([[c] + rest[0]] + rest[1..], sep) == [c] + tail
  {
    JoinExtendFirst(c, rest, sep);
  }

  lemma JoinCons(x: string, rest: seq<string>, sep: string)
    requires |rest| >= 1
    ensures Join([x] + rest, sep) == x + sep + Join(rest, sep)
  {
    assert ([x] + rest)[1..] == rest;
  }

  /** Prefixing the first piece prefixes the joined text. */
  lemma JoinExtendFirst(c: char, parts: seq<string>, sep: string)
    requires |parts| >= 1
    ensures Join([[c] + parts[0]] + parts[1..], sep) == [c] + Join(parts, sep)
  {
    if |parts| > 1 {
      JoinCons([c] + parts[0], parts[1..], sep);
      assert Join(parts, sep) == parts[0] + sep + Join(parts[1..], sep);
    }
  }

  predicate StartsWith(s: string, prefix: string)
  {
    |prefix| <= |s| && s[..|prefix|] == prefix
  }

  /** `sep in s`. */
  predicate Contains(s: string, sep: string)
    decreases |s|
  {
    StartsWith(s, sep) || (s != [] && Contains(s[1..], sep))
  }

  /** A split yields a second piece exactly when the separator occurs. */
  lemma {:induction false} SplitHasSecondPiece(s: string, sep: string)
    requires sep != []
    ensures |Split(s, sep)| >= 2 <==> Contains(s, sep)
    decreases |s|
  {
    if |s| < |sep| {
      NotContainsShort(s, sep);
    } else if s[..|sep|] != sep {
      SplitHasSecondPiece(s[1..], sep);
    }
  }

  lemma {:induction false} NotContainsShort(s: string, sep: string)
    requires |s| < |sep|
    ensures !Contains(s, sep)
    decreases |s|
  {
    if s != [] { NotContainsShort(s[1..], sep); }
  }

  /** One step of a split on a single character. */
  lemma SplitCharStep(s: string, c: char)
    requires s != []
    ensures Split(s, [c]) ==
      if s[0] == c then [[]] + Split(s[1..], [c])
      else [[s[0]] + Split(s[1..], [c])[0]] + Split(s[1..], [c])[1..]
  {
    assert s[..1] == [s[0]];
  }

  /** No piece of a split on one character holds that character. */
  lemma {:induction false} SplitPiecesAvoid(s: string, c: char)
    ensures forall p :: p in Split(s, [c]) ==> c !in p
    decreases |s|
  {
    if s == [] {
      assert Split(s, [c]) == [[]];
    } else {
      SplitCharStep(s, c);
      SplitPiecesAvoid(s[1..], c);
      var rest := Split(s[1..], [c]);
      if s[0] != c {
        assert c !in [s[0]] + rest[0];
        forall p | p in rest[1..]
          ensures c !in p
        {
          assert p in rest;
        }
      }
    }
  }

  /** Splitting on one character: the text on either side of an occurrence splits on its own. */
  lemma {:induction false} SplitAtChar(a: string, c: char, b: string)
    ensures Split(a + [c] + b, [c]) == Split(a, [c]) + Split(b, [c])
    decreases |a|
  {
    var s := a + [c] + b;
    SplitCharStep(s, c);
    if a == [] {
      assert s[0] == c && s[1..] == b;
    } else {
      assert s[0] == a[0] && s[1..] == a[1..] + [c] + b;
      SplitAtChar(a[1..], c, b);
      SplitCharStep(a, c);
      StepPieces(a[0], c, Split(a[1..], [c]), Split(b, [c]), Split(s[1..], [c]), Split(s, [c]), Split(a, [c]));
    }
  }

  /** One step of a single-character split, on the lists of pieces alone: putting one
      more character in front of both texts keeps the pieces of `b` at the end. */
  lemma StepPieces(x: char, c: char, ra: seq<string>, rb: seq<string>, rs: seq<string>,
                   stepS: seq<string>, stepA: seq<string>)
    requires |ra| >= 1 && rs == ra + rb
    requires stepS == if x == c then [[]] + rs else [[x] + rs[0]] + rs[1..]
    requires stepA == if x == c then [[]] + ra else [[x] + ra[0]] + ra[1..]
    ensures stepS == stepA + rb
  {
    if x == c {
      assert [[]] + (ra + rb) == ([[]] + ra) + rb;
    } else {
      assert rs[0] == ra[0] && rs[1..] == ra[1..] + rb;
      assert [[x] + ra[0]] + (ra[1..] + rb) == ([[x] + ra[0]] + ra[1..]) + rb;
    }
  }

  /** Text without the separator character is a single piece. */
  lemma {:induction false} SplitWithoutChar(s: string, c: char)
    requires c !in s
    ensures Split(s, [c]) == [s]
    decreases |s|
  {
    if s != [] {
      assert s[0] != c && s[..1][0] == s[0];
      SplitWithoutChar(s[1..], c);
      assert [s[0]] + s[1..] == s;
    }
  }

  /** Text that no occurrence of `sep` starts inside becomes the head of the first piece. */
  lemma {:induction false} SplitFreePrefix(p: string, b: string, sep: string)
    requires sep != []
    requires forall i :: 0 <= i < |p| ==> !StartsWith((p + b)[i..], sep)
    ensures Split(p + b, sep) == [p + Split(b, sep)[0]] + Split(b, sep)[1..]
    decreases |p|
  {
    if p != [] {
      var s := p + b;
      assert s[1..] == p[1..] + b;
      forall i | 0 <= i < |p[1..]|
        ensures !StartsWith((p[1..] + b)[i..], sep)
      {
        assert (p[1..] + b)[i..] == s[i + 1..];
      }
      SplitFreePrefix(p[1..], b, sep);
      assert s[0] == p[0] && [p[0]] + p[1..] == p;
      if |s| >= |sep| {
        assert s[0..] == s;
        assert !StartsWith(s[0..], sep);
        var rest, rb := Split(s[1..], sep), Split(b, sep);
        assert Split(s, sep) == [[s[0]] + rest[0]] + rest[1..];
        assert rest[0] == p[1..] + rb[0] && rest[1..] == rb[1..];
        assert [s[0]] + (p[1..] + rb[0]) == p + rb[0];
      } else {
        assert Split(b, sep) == [b];
      }
    } else {
      var rb := Split(b, sep);
      assert p + b == b && p + rb[0] == rb[0];
      assert rb == [rb[0]] + rb[1..];
    }
  }

  /** A wmctrl field marker such as `DG:`: its only colon is its last character. */
  predicate IsMarker(m: string)
  {
    |m| >= 1 && m[|m| - 1] == ':' && ':' !in m[..|m| - 1]
  }

  /** An occurrence of a marker whose closing colon would fall on a character other than a colon. */
  lemma NoMarkerAt(s: string, i: nat, m: string, k: nat)
    requires IsMarker(m) && i <= k < i + |m| && k < |s|
    requires if k == i + |m| - 1 then s[k] != ':' else s[k] == ':'
    ensures !StartsWith(s[i..], m)
  {
    if i + |m| <= |s| {
      assert s[i..][..|m|][k - i] == s[k];
      if k < i + |m| - 1 {
        assert m[k - i] == m[..|m| - 1][k - i];
      }
    }
  }

  /** In colon-free text followed by a marker, the first occurrence of the marker is that one. */
  lemma SplitAtMarker(a: string, m: string, b: string)
    requires IsMarker(m) && ':' !in a
    ensures Split(a + m + b, m) == [a] + Split(b, m)
  {
    var s := a + (m + b);
    forall i | 0 <= i < |a|
      ensures !StartsWith(s[i..], m)
    {
      var k := i + |m| - 1;
      if k < |a| {
        assert s[k] == a[k];
      } else {
        assert s[k] == m[k - |a|] == m[..|m| - 1][k - |a|];
      }
      NoMarkerAt(s, i, m, k);
    }
    SplitFreePrefix(a, m + b, m);
    assert (m + b)[..|m|] == m && (m + b)[|m|..] == b;
    assert Split(m + b, m) == [[]] + Split(b, m);
    assert a + m + b == s;
    assert Split(s, m) == [a + []] + Split(b, m);
    assert a + [] == a;
  }

  /** Colon-free text followed by a different marker of the same length is part of one piece. */
  lemma SplitPastMarker(a: string, other: string, b: string, m: string)
    requires IsMarker(m) && IsMarker(other) && |other| == |m| && other != m && ':' !in a
    ensures Split(a + other + b, m) == [a + other + Split(b, m)[0]] + Split(b, m)[1..]
  {
    var p := a + other;
    var s := p + b;
    var c := |a| + |m| - 1;
    assert s[c] == other[|other| - 1] == ':';
    forall i | 0 <= i < |p|
      ensures !StartsWith(s[i..], m)
    {
      var k := i + |m| - 1;
      if i < |a| {
        if k < |a| {
          assert s[k] == a[k];
        } else {
          assert s[k] == other[k - |a|] == other[..|other| - 1][k - |a|];
        }
        NoMarkerAt(s, i, m, k);
      } else if i == |a| {
        assert s[i..][..|m|] == other;
      } else {
        NoMarkerAt(s, i, m, c);
      }
    }
    SplitFreePrefix(p, b, m);
  }

  /** Colon-free text holds no marker and is a single piece. */
  lemma SplitColonFree(t: string, m: string)
    requires IsMarker(m) && ':' !in t
    ensures Split(t, m) == [t]
  {
    var s := t + [];
    assert s == t;
    forall i | 0 <= i < |t|
      ensures !StartsWith(s[i..], m)
    {
      if i + |m| <= |t| {
        NoMarkerAt(t, i, m, i + |m| - 1);
      }
    }
    SplitFreePrefix(t, [], m);
  }

  // ---------------------------------------------------------------- strip

  /** The two kinds of whitespace the parsers meet: what `str.strip()`
      removes, and the narrower set `int()` skips around a literal. */
  datatype Blanks = StrBlanks | IntBlanks

  /** Python's `str.isspace()` for one character. */
  predicate IsSpace(c: char)
  {
    c == ' ' || '\t' <= c <= '\r' || '\U{1C}' <= c <= '\U{1F}' || c == '\U{85}' || c == '\U{A0}'
    || c == '\U{1680}' || '\U{2000}' <= c <= '\U{200A}' || c == '\U{2028}' || c == '\U{2029}'
    || c == '\U{202F}' || c == '\U{205F}' || c == '\U{3000}'
  }

  /** The whitespace `int()` skips: the C-locale space characters (tab, line
      feed, vertical tab, form feed, carriage return, space) and every
      non-ASCII `str.isspace()` character. The ASCII separators U+001C to
      U+001F are `str.isspace()` but are not skipped. */
  predicate IsIntSpace(c: char)
  {
    IsSpace(c) && !('\U{1C}' <= c <= '\U{1F}')
  }

  predicate IsBlank(b: Blanks, c: char)
  {
    if b == StrBlanks then IsSpace(c) else IsIntSpace(c)
  }

  /** The suffix of `s` after its leading blanks (`s.lstrip()` for `StrBlanks`). */
  function TrimLeft(s: string, b: Blanks): string
  {
    if s != [] && IsBlank(b, s[0]) then TrimLeft(s[1..], b) else s
  }

  /** The prefix of `s` before its trailing blanks (`s.rstrip()` for `StrBlanks`). */
  function TrimRight(s: string, b: Blanks): string
  {
    if s != [] && IsBlank(b, s[|s| - 1]) then TrimRight(s[..|s| - 1], b) else s
  }

  /** `s.strip()`: what is left has no whitespace at either end. */
  function Strip(s: string): (r: string)
    ensures r == [] || (!IsSpace(r[0]) && !IsSpace(r[|r| - 1]))
  {
    TrimLeftStart(s, StrBlanks);
    TrimRightEnds(TrimLeft(s, StrBlanks), StrBlanks);
    TrimRight(TrimLeft(s, StrBlanks), StrBlanks)
  }

  /** The text `int()` reads once the whitespace it skips is removed from both ends. */
  function IntStrip(s: string): string
  {
    TrimRight(TrimLeft(s, IntBlanks), IntBlanks)
  }

  /** What is left after the leading blanks does not start with a blank. */
  lemma {:induction false} TrimLeftStart(s: string, b: Blanks)
    ensures TrimLeft(s, b) == [] || !IsBlank(b, TrimLeft(s, b)[0])
    decreases |s|
  {
    if s != [] && IsBlank(b, s[0]) {
      TrimLeftStart(s[1..], b);
    }
  }

  /** What is left before the trailing blanks is a prefix of the input that does not end with a blank. */
  lemma {:induction false} TrimRightEnds(s: string, b: Blanks)
    ensures var r := TrimRight(s, b);
      |r| <= |s| && r == s[..|r|] && (r == [] || !IsBlank(b, r[|r| - 1]))
    decreases |s|
  {
    if s != [] && IsBlank(b, s[|s| - 1]) {
      var init := s[..|s| - 1];
      TrimRightEnds(init, b);
      var r := TrimRight(init, b);
      assert r == init[..|r|];
      assert init[..|r|] == s[..|r|];
    } else {
      assert s == s[..|s|];
    }
  }

  predicate AllBlank(b: Blanks, s: string)
  {
    forall k :: 0 <= k < |s| ==> IsBlank(b, s[k])
  }

  /** Text made of `str.isspace()` characters only. */
  predicate AllSpace(s: string)
  {
    AllBlank(StrBlanks, s)
  }

  /** Text between whitespace runs, with no whitespace at either end, is what strip returns. */
  lemma StripSurrounded(lead: string, t: string, trail: string)
    requires AllSpace(lead) && AllSpace(trail)
    requires t == [] || (!IsSpace(t[0]) && !IsSpace(t[|t| - 1]))
    ensures Strip(lead + t + trail) == t
  {
    if t == [] {
      var s := lead + t + trail;
      assert AllBlank(StrBlanks, s) by {
        forall k | 0 <= k < |s|
          ensures IsBlank(StrBlanks, s[k])
        {
          if k < |lead| {
            assert s[k] == lead[k];
          } else {
            assert s[k] == trail[k - |lead|];
          }
        }
      }
      TrimLeftAllBlank(s, StrBlanks);
    } else {
      TrimLeftSurrounded(lead, t, trail, StrBlanks);
      TrimRightBlanks(t, trail, StrBlanks);
    }
  }

  lemma {:induction false} TrimLeftAllBlank(s: string, b: Blanks)
    requires AllBlank(b, s)
    ensures TrimLeft(s, b) == []
    decreases |s|
  {
    if s != [] {
      TrimLeftAllBlank(s[1..], b);
    }
  }

  lemma TrimLeftSurrounded(lead: string, t: string, trail: string, b: Blanks)
    requires AllBlank(b, lead) && t != [] && !IsBlank(b, t[0])
    ensures TrimLeft(lead + t + trail, b) == t + trail
  {
    assert lead + t + trail == lead + (t + trail);
    TrimLeftBlanks(lead, t + trail, b);
    assert (t + trail)[0] == t[0];
  }

  lemma {:induction false} TrimLeftBlanks(lead: string, s: string, b: Blanks)
    requires AllBlank(b, lead)
    ensures TrimLeft(lead + s, b) == TrimLeft(s, b)
    decreases |lead|
  {
    if lead != [] {
      assert (lead + s)[1..] == lead[1..] + s;
      TrimLeftBlanks(lead[1..], s, b);
    } else {
      assert lead + s == s;
    }
  }

  lemma {:induction false} TrimRightBlanks(s: string, trail: string, b: Blanks)
    requires AllBlank(b, trail)
    requires s == [] || !IsBlank(b, s[|s| - 1])
    ensures TrimRight(s + trail, b) == s
    decreases |trail|
  {
    if trail != [] {
      var t := s + trail;
      assert t[..|t| - 1] == s + trail[..|trail| - 1];
      TrimRightBlanks(s, trail[..|trail| - 1], b);
    } else {
      assert s + trail == s;
    }
  }

  // ---------------------------------------------------------------- int() and str()

  predicate IsDigit(c: char)
  {
    '0' <= c <= '9'
  }

  function DigitValue(c: char): nat
    requires IsDigit(c)
  {
    (c as int) - ('0' as int)
  }

  function DigitChar(d: nat): (c: char)
    requires d < 10
    ensures IsDigit(c) && DigitValue(c) == d
  {
    ('0' as int + d) as char
  }

  predicate DigitsOrUnderscores(s: string)
  {
    forall i :: 0 <= i < |s| ==> IsDigit(s[i]) || s[i] == '_'
  }

  /** The body of a base-10 literal that `int()` accepts: digits, with single
      underscores allowed between two digits. */
  predicate IsDigitGroup(s: string)
  {
    |s| > 0 && IsDigit(s[0]) && IsDigit(s[|s| - 1]) && DigitsOrUnderscores(s)
    && forall i, j :: 0 <= i < |s| && 0 <= j < |s| && j == i + 1 ==> !(s[i] == '_' && s[j] == '_')
  }

  /** The number a digit group denotes; underscores carry no value. */
  function DigitsValue(s: string): nat
    requires DigitsOrUnderscores(s)
  {
    if s == [] then 0
    else if s[|s| - 1] == '_' then DigitsValue(s[..|s| - 1])
    else DigitsValue(s[..|s| - 1]) * 10 + DigitValue(s[|s| - 1])
  }

  /** `int(text)` in base 10: the whitespace `int()` skips is ignored at both
      ends, then the literal is read. */
  function ParseInt(text: string): (r: Result<int>)
    ensures r.Err? ==> r.failure == ValueError
  {
    ParseLiteral(IntStrip(text))
  }

  /** A character that can be neither part of a literal nor whitespace `int()` skips around it. */
  predicate IsForeign(c: char)
  {
    !IsIntSpace(c) && !IsDigit(c) && c != '+' && c != '-' && c != '_'
  }

  /** `int()` rejects any text holding a foreign character, whatever surrounds it. */
  lemma ForeignCharFails(text: string, c: char)
    requires c in text && IsForeign(c)
    ensures ParseInt(text) == Err(ValueError)
  {
    TrimLeftKeeps(text, c);
    TrimRightKeeps(TrimLeft(text, IntBlanks), c);
    LiteralRejectsForeign(IntStrip(text), c);
  }

  /** `int()` rejects text that is empty or only whitespace. Whitespace that
      `int()` does not skip (U+001C to U+001F) is rejected as a foreign character. */
  lemma BlankFails(text: string)
    requires AllSpace(text)
    ensures ParseInt(text) == Err(ValueError)
  {
    if c :| c in text && !IsIntSpace(c) {
      ForeignCharFails(text, c);
    } else {
      assert AllBlank(IntBlanks, text) by {
        forall k | 0 <= k < |text|
          ensures IsBlank(IntBlanks, text[k])
        {
          assert text[k] in text;
        }
      }
      TrimLeftAllBlank(text, IntBlanks);
    }
  }

  /** `str.strip()` removes a U+001C separator but `int()` does not skip it. */
  lemma SeparatorNotSkipped()
    ensures Strip("\U{1C}5") == "5"
    ensures ParseInt("\U{1C}5") == Err(ValueError)
  {
    assert AllSpace("\U{1C}") && AllSpace([]);
    StripSurrounded("\U{1C}", "5", []);
    assert "\U{1C}" + "5" + [] == "\U{1C}5";
    assert '\U{1C}' in "\U{1C}5" && IsForeign('\U{1C}');
    ForeignCharFails("\U{1C}5", '\U{1C}');
  }

  lemma {:induction false} TrimLeftKeeps(s: string, c: char)
    requires c in s && !IsIntSpace(c)
    ensures c in TrimLeft(s, IntBlanks)
    decreases |s|
  {
    if IsIntSpace(s[0]) {
      assert c in s[1..] by {
        var i :| 0 <= i < |s| && s[i] == c;
        assert i > 0 && s[1..][i - 1] == c;
      }
      TrimLeftKeeps(s[1..], c);
    }
  }

  lemma {:induction false} TrimRightKeeps(s: string, c: char)
    requires c in s && !IsIntSpace(c)
    ensures c in TrimRight(s, IntBlanks)
    decreases |s|
  {
    if IsIntSpace(s[|s| - 1]) {
      assert c in s[..|s| - 1] by {
        var i :| 0 <= i < |s| && s[i] == c;
        assert i < |s| - 1 && s[..|s| - 1][i] == c;
      }
      TrimRightKeeps(s[..|s| - 1], c);
    }
  }

  lemma LiteralRejectsForeign(t: string, c: char)
    requires c in t && IsForeign(c)
    ensures ParseLiteral(t) == Err(ValueError)
  {
    var i :| 0 <= i < |t| && t[i] == c;
    if t[0] == '+' || t[0] == '-' {
      assert i > 0 && t[1..][i - 1] == c;
    }
  }

  /** A base-10 integer literal: one optional sign, then a digit group;
      anything else raises ValueError. */
  function ParseLiteral(t: string): (r: Result<int>)
    ensures r.Err? ==> r.failure == ValueError
  {
    if |t| > 0 && (t[0] == '+' || t[0] == '-') then
      if IsDigitGroup(t[1..]) then
        Ok(if t[0] == '-' then 0 - DigitsValue(t[1..]) else DigitsValue(t[1..]))
      else Err(ValueError)
    else if IsDigitGroup(t) then Ok(DigitsValue(t))
    else Err(ValueError)
  }

  /** The digits `str(n)` writes for a natural number: no sign, no leading zero. */
  predicate IsCanonicalNat(s: string)
  {
    |s| >= 1 && (forall i :: 0 <= i < |s| ==> IsDigit(s[i])) && (s[0] == '0' ==> |s| == 1)
  }

  /** The text `str(n)` writes for some integer `n`. */
  predicate IsCanonicalInt(s: string)
  {
    IsCanonicalNat(s) || (|s| >= 2 && s[0] == '-' && IsCanonicalNat(s[1..]) && s[1] != '0')
  }

  function NatToString(n: nat): (r: string)
    ensures IsCanonicalNat(r)
  {
    if n < 10 then [DigitChar(n)] else NatToString(n / 10) + [DigitChar(n % 10)]
  }

  /** `str(n)`. */
  function IntToString(n: int): (r: string)
    ensures IsCanonicalInt(r)
    ensures forall i :: 0 <= i < |r| ==> IsDigit(r[i]) || r[i] == '-'
  {
    if n < 0 then "-" + NatToString(-n) else NatToString(n)
  }

  lemma {:induction false} NatToStringValue(n: nat)
    ensures DigitsOrUnderscores(NatToString(n)) && DigitsValue(NatToString(n)) == n
  {
    var s := NatToString(n);
    if n >= 10 {
      NatToStringValue(n / 10);
      assert s[..|s| - 1] == NatToString(n / 10);
    }
  }

  lemma StripCanonical(s: string)
    requires IsCanonicalInt(s)
    ensures IntStrip(s) == s
  {
    assert !IsIntSpace(s[0]) && !IsIntSpace(s[|s| - 1]);
  }

  lemma CanonicalNatIsDigitGroup(s: string)
    requires IsCanonicalNat(s)
    ensures IsDigitGroup(s)
  {
  }

  /** A literal written the way `str` writes it reads as its digits' value, negated after a minus sign. */
  lemma LiteralOfCanonical(s: string)
    requires IsCanonicalInt(s)
    ensures s[0] == '-' ==> IsCanonicalNat(s[1..]) && ParseLiteral(s) == Ok(0 - DigitsValue(s[1..]))
    ensures s[0] != '-' ==> IsCanonicalNat(s) && ParseLiteral(s) == Ok(DigitsValue(s))
  {
    if s[0] == '-' {
      CanonicalNatIsDigitGroup(s[1..]);
    } else {
      assert IsCanonicalNat(s) && IsDigit(s[0]);
      CanonicalNatIsDigitGroup(s);
    }
  }

  /** `int` reads text written the way `str` writes it as its digits' value, negated after a minus sign. */
  lemma ParseCanonical(s: string)
    requires IsCanonicalInt(s)
    ensures s[0] == '-' ==> IsCanonicalNat(s[1..]) && ParseInt(s) == Ok(0 - DigitsValue(s[1..]))
    ensures s[0] != '-' ==> IsCanonicalNat(s) && ParseInt(s) == Ok(DigitsValue(s))
  {
    StripCanonical(s);
    LiteralOfCanonical(s);
  }

  /** A minus sign before the digits of a positive number is text `str` writes. */
  lemma NegatedCanonical(t: string)
    requires IsCanonicalNat(t) && t[0] != '0'
    ensures IsCanonicalInt("-" + t)
  {
    assert ("-" + t)[1..] == t;
  }

  lemma StripNegated(t: string)
    requires IsCanonicalNat(t) && t[0] != '0'
    ensures IntStrip("-" + t) == "-" + t
  {
    NegatedCanonical(t);
    StripCanonical("-" + t);
  }

  lemma LiteralNegated(t: string)
    requires IsCanonicalNat(t) && t[0] != '0'
    ensures ParseLiteral("-" + t) == Ok(0 - DigitsValue(t))
  {
    NegatedCanonical(t);
    LiteralOfCanonical("-" + t);
    assert ("-" + t)[1..] == t;
  }

  /** A minus sign before the digits `str` writes for a positive number negates their value. */
  lemma ParseNegated(t: string)
    requires IsCanonicalNat(t) && t[0] != '0'
    ensures ParseInt("-" + t) == Ok(0 - DigitsValue(t))
  {
    StripNegated(t);
    LiteralNegated(t);
  }

  lemma ParseNegative(t: string, n: int)
    requires n < 0 && IsCanonicalNat(t) && t[0] != '0' && DigitsValue(t) == -n
    ensures ParseInt("-" + t) == Ok(n)
  {
    ParseNegated(t);
  }

  /** `str` writes no leading zero for a positive number. */
  lemma NoLeadingZero(m: nat)
    requires m > 0
    ensures NatToString(m)[0] != '0'
  {
    var t := NatToString(m);
    NatToStringValue(m);
    assert t[0] == '0' ==> t == "0";
  }

  /** `int(str(n)) == n`. */
  lemma ParseIntToString(n: int)
    ensures ParseInt(IntToString(n)) == Ok(n)
  {
    if n < 0 {
      var t := NatToString(-n);
      NatToStringValue(-n);
      NoLeadingZero(-n);
      ParseNegative(t, n);
    } else {
      var s := NatToString(n);
      NatToStringValue(n);
      ParseCanonical(s);
      assert IsDigit(s[0]);
    }
  }

  lemma {:induction false} DigitsValuePositive(s: string)
    requires IsCanonicalNat(s) && s[0] != '0'
    ensures DigitsValue(s) >= 1
    decreases |s|
  {
    if |s| > 1 {
      DigitsValuePositive(s[..|s| - 1]);
    }
  }

  lemma {:induction false} NatToStringOfDigits(s: string)
    requires IsCanonicalNat(s)
    ensures NatToString(DigitsValue(s)) == s
    decreases |s|
  {
    if |s| > 1 {
      var init := s[..|s| - 1];
      NatToStringOfDigits(init);
      DigitsValuePositive(init);
      var v := DigitsValue(s);
      assert v == DigitsValue(init) * 10 + DigitValue(s[|s| - 1]);
      assert v / 10 == DigitsValue(init) && v % 10 == DigitValue(s[|s| - 1]);
      assert s == init + [s[|s| - 1]];
    }
  }

  /** `str(int(s)) == s` for every text `s` that `str` can write. */
  lemma IntToStringOfParse(s: string)
    requires IsCanonicalInt(s)
    ensures ParseInt(s).Ok? && IntToString(ParseInt(s).value) == s
  {
    ParseCanonical(s);
    if s[0] == '-' {
      var digits := s[1..];
      NatToStringOfDigits(digits);
      DigitsValuePositive(digits);
      assert IntToString(0 - DigitsValue(digits)) == "-" + NatToString(DigitsValue(digits));
      assert s == "-" + digits;
    } else {
      NatToStringOfDigits(s);
    }
  }

  /** Text written by `str` holds no separator other than digits and the minus sign. */
  lemma CanonicalAvoids(s: string, c: char)
    requires IsCanonicalInt(s) && !IsDigit(c) && c != '-'
    ensures c !in s
  {
    forall i | 0 <= i < |s|
      ensures s[i] != c
    {
      if !IsCanonicalNat(s) && i > 0 {
        assert s[i] == s[1..][i - 1];
      }
    }
  }
}
