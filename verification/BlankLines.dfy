/** The last step of every rendering: at most one blank line in a row, nothing blank around. */
module BlankLines {
  import opened Text

  /** How many blank lines end the sequence. */
  function TrailingBlanks(lines: seq<string>): nat {
    if lines == [] || Trim(TrimEnd(lines[|lines| - 1])) != "" then 0 else 1 + TrailingBlanks(lines[..|lines| - 1])
  }

  /** Each line without the space at its end, only the first of adjacent blank ones. */
  function Squeeze(lines: seq<string>): seq<string> {
    if lines == [] then [] else
    var (init, line) := (lines[..|lines| - 1], TrimEnd(lines[|lines| - 1]));
    if Trim(line) != "" then Squeeze(init) + [line]
    else if TrailingBlanks(init) == 0 then Squeeze(init) + [""]
    else Squeeze(init)
  }

  function Collapse(markdown: string): string {
    Trim(Join(Squeeze(Lines(markdown)), "\n"))
  }

  /** The loop of collapse_blank_lines. */
  method CollapseBlankLines(markdown: string) returns (r: string)
    ensures r == Collapse(markdown)
  {
    hide Lines, TrimEnd, Trim;
    var lines := Lines(markdown);
    var out: seq<string>, blanks := [], 0;
    for k := 0 to |lines|
      invariant out == Squeeze(lines[..k])
      invariant blanks == TrailingBlanks(lines[..k])
    {
      var line := TrimEnd(lines[k]);
      assert lines[..k + 1][..k] == lines[..k];
      if Trim(line) == "" {
        blanks := blanks + 1;
        if blanks <= 1 {
          out := out + [""];
        }
      } else {
        blanks := 0;
        out := out + [line];
      }
    }
    assert lines[..|lines|] == lines;
    return Trim(Join(out, "\n"));
  }

  // ---------- Only whitespace goes ----------

  lemma {:induction false} SolidOfSqueeze(lines: seq<string>)
    ensures SolidAll(Squeeze(lines)) == SolidAll(lines)
  {
    hide Solid, Trim, TrimEnd, SolidAll, TrailingBlanks;
    if lines == [] {
    } else {
      var init, line := lines[..|lines| - 1], lines[|lines| - 1];
      SolidOfSqueeze(init);
      SolidOfTrimEnd(line);
      SolidOfTrim(TrimEnd(line));
      SolidAllOfConcat(init, [line]);
      SolidAllOfConcat(Squeeze(init), [TrimEnd(line)]);
      SolidAllOfConcat(Squeeze(init), [""]);
      SolidAllOfOne(line);
      SolidAllOfOne(TrimEnd(line));
      SolidAllOfOne("");
      SolidOfEmpty();
      assert lines == init + [line];
    }
  }

  /** Collapsing keeps every character that is not whitespace, in order. */
  lemma CollapseKeepsText(markdown: string)
    ensures Solid(Collapse(markdown)) == Solid(markdown)
  {
    var lines := Squeeze(Lines(markdown));
    SolidOfLines(markdown);
    SolidOfSqueeze(Lines(markdown));
    SolidOfJoin(lines, "\n");
    SolidOfTrim(Join(lines, "\n"));
  }

  // ---------- What collapsed lines look like ----------

  /** No space at the end of a line and no two blank lines in a row. */
  predicate Squeezed(lines: seq<string>) {
    && (forall line | line in lines :: '\n' !in line && TrimEnd(line) == line)
    && (forall i | 0 <= i < |lines| - 1 :: lines[i] != "" || lines[i + 1] != "")
  }

  /** Moreover nothing blank at the start or the end. */
  predicate Collapsed(lines: seq<string>) {
    && Squeezed(lines)
    && (lines != [] ==> lines[0] != "" && TrimStart(lines[0]) == lines[0] && lines[|lines| - 1] != "")
  }

  lemma BlankWhenTrimmed(line: string)
    ensures Trim(TrimEnd(line)) == "" <==> TrimEnd(line) == ""
  {
    SolidOfTrim(TrimEnd(line));
    SolidOfBlank(TrimEnd(line));
    var t := TrimEnd(line);
    if t != "" { assert t[|t| - 1] in t; }
  }

  lemma TrimEndTwice(line: string)
    ensures TrimEnd(TrimEnd(line)) == TrimEnd(line)
    ensures '\n' !in line ==> '\n' !in TrimEnd(line)
  {
  }

  lemma SqueezedExtended(lines: seq<string>, line: string)
    requires Squeezed(lines) && '\n' !in line && TrimEnd(line) == line
    requires lines == [] || lines[|lines| - 1] != "" || line != ""
    ensures Squeezed(lines + [line])
  {
  }

  lemma {:induction false} SqueezeIsSqueezed(lines: seq<string>)
    requires forall line | line in lines :: '\n' !in line
    ensures var r := Squeeze(lines);
            && Squeezed(r)
            && (TrailingBlanks(lines) > 0 ==> r != [] && r[|r| - 1] == "")
            && (TrailingBlanks(lines) == 0 ==> r == [] || r[|r| - 1] != "")
  {
    hide Trim, TrimEnd, Squeezed;
    if lines == [] {
      assert Squeezed([]) by { EmptyIsSqueezed(); }
    } else {
      var init, line := lines[..|lines| - 1], lines[|lines| - 1];
      assert line in lines;
      SqueezeIsSqueezed(init);
      BlankWhenTrimmed(line);
      TrimEndTwice(line);
      var r := Squeeze(init);
      if TrimEnd(line) != "" || TrailingBlanks(init) == 0 {
        SqueezedExtended(r, TrimEnd(line));
      }
    }
  }

  lemma EmptyIsSqueezed()
    ensures Squeezed([])
  {
  }

  lemma {:induction false} SqueezedStays(lines: seq<string>)
    requires Squeezed(lines)
    ensures Squeeze(lines) == lines
    ensures TrailingBlanks(lines) == 0 <==> lines == [] || lines[|lines| - 1] != ""
  {
    if lines == [] {
    } else {
      var init, line := lines[..|lines| - 1], lines[|lines| - 1];
      assert line in lines && lines == init + [line];
      SqueezedStays(init);
      BlankWhenTrimmed(line);
    }
  }

  lemma {:induction false} LinesHaveNoNewline(s: string)
    ensures forall line | line in Lines(s) :: '\n' !in line
    decreases |s|
  {
    if s == "" {
    } else {
      var i := IndexOf(s, '\n');
      if i < |s| { LinesHaveNoNewline(s[i + 1..]); }
    }
  }

  // ---------- Trimming joined lines ----------

  /** A leading blank line goes, and the space in front of the first line. */
  function Front(lines: seq<string>): seq<string> {
    if lines == [] then []
    else if lines[0] != "" then [TrimStart(lines[0])] + lines[1..]
    else if |lines| == 1 then []
    else [TrimStart(lines[1])] + lines[2..]
  }

  /** A blank line at the end goes. */
  function Back(lines: seq<string>): seq<string> {
    if lines != [] && lines[|lines| - 1] == "" then lines[..|lines| - 1] else lines
  }

  lemma {:induction false} TrimStartStops(s: string, tail: string)
    requires Solid(s) != ""
    ensures TrimStart(s + tail) == TrimStart(s) + tail && TrimStart(s) != ""
  {
    if !IsWhitespace(s[0]) {
    } else {
      assert (s + tail)[1..] == s[1..] + tail;
      TrimStartStops(s[1..], tail);
    }
  }

  lemma TrimStartOfTrimmedEnd(s: string)
    requires TrimEnd(s) == s && s != ""
    ensures Solid(s) != "" && TrimEnd(TrimStart(s)) == TrimStart(s) && TrimStart(s) != ""
    ensures '\n' !in s ==> '\n' !in TrimStart(s)
    ensures TrimStart(TrimStart(s)) == TrimStart(s)
  {
    hide TrimStart, TrimEnd, Solid, IsWhitespace, Blank;
    TrimmedHasText(s);
    var pad := TrimStartTakes(s);
    TrimStartStops(s, "");
    SuffixEnds(s, pad, TrimStart(s));
    TrimStartTwice(s);
  }

  lemma TrimmedHasText(s: string)
    requires TrimEnd(s) == s && s != ""
    ensures Solid(s) != ""
  {
    hide IsWhitespace, Solid;
    SolidOfBlank(s);
    assert s[|s| - 1] in s;
  }

  /** What is left behind the pad ends like the whole. */
  lemma SuffixEnds(s: string, pad: string, rest: string)
    requires s == pad + rest && rest != "" && TrimEnd(s) == s
    ensures TrimEnd(rest) == rest
    ensures '\n' !in s ==> '\n' !in rest
  {
    hide IsWhitespace;
    assert s[|s| - 1] == rest[|rest| - 1];
  }

  lemma TrimStartTwice(s: string)
    ensures TrimStart(TrimStart(s)) == TrimStart(s)
  {
    hide IsWhitespace;
  }

  lemma FrontOfJoin(lines: seq<string>)
    requires Squeezed(lines)
    ensures TrimStart(Join(lines, "\n")) == Join(Front(lines), "\n")
  {
    if lines != [] && lines[0] != "" {
      FirstLineTrims(lines);
    } else if |lines| > 1 {
      assert lines[1] in lines && Squeezed(lines[1..]);
      TrimStartOfPadded("\n", Join(lines[1..], "\n"));
      FirstLineTrims(lines[1..]);
      assert lines[1..][1..] == lines[2..];
      assert lines[0] + "\n" + Join(lines[1..], "\n") == "\n" + Join(lines[1..], "\n");
    }
  }

  lemma FirstLineTrims(lines: seq<string>)
    requires Squeezed(lines) && lines != [] && lines[0] != ""
    ensures TrimStart(Join(lines, "\n")) == Join([TrimStart(lines[0])] + lines[1..], "\n")
  {
    hide TrimStart, TrimEnd, Solid, Join;
    assert lines[0] in lines;
    TrimStartOfTrimmedEnd(lines[0]);
    assert lines == [lines[0]] + lines[1..];
    JoinOfFirst(lines[0], lines[1..]);
    JoinOfFirst(TrimStart(lines[0]), lines[1..]);
    if |lines| > 1 {
      TrimStartStops(lines[0], "\n" + Join(lines[1..], "\n"));
    }
  }

  lemma JoinOfFirst(line: string, rest: seq<string>)
    ensures Join([line] + rest, "\n") == if rest == [] then line else line + ("\n" + Join(rest, "\n"))
  {
    assert ([line] + rest)[1..] == rest;
  }

  lemma FrontIsSqueezed(lines: seq<string>)
    requires Squeezed(lines)
    ensures var front := Front(lines);
            Squeezed(front) && (front != [] ==> front[0] != "" && TrimStart(front[0]) == front[0])
  {
    hide TrimEnd, TrimStart;
    if lines != [] && lines[0] != "" {
      assert lines[0] in lines;
      TrimStartOfTrimmedEnd(lines[0]);
    } else if |lines| > 1 {
      assert lines[1] in lines;
      TrimStartOfTrimmedEnd(lines[1]);
    }
  }

  lemma {:induction false} JoinEnds(lines: seq<string>)
    requires lines != [] && lines[|lines| - 1] != "" && TrimEnd(lines[|lines| - 1]) == lines[|lines| - 1]
    ensures var s := Join(lines, "\n"); s != "" && !IsWhitespace(s[|s| - 1])
  {
    hide IsWhitespace;
    if |lines| == 1 {
    } else {
      JoinEnds(lines[1..]);
    }
  }

  lemma {:induction false} JoinOfExtended(lines: seq<string>, line: string)
    requires lines != []
    ensures Join(lines + [line], "\n") == Join(lines, "\n") + "\n" + line
  {
    assert (lines + [line])[1..] == lines[1..] + [line];
    if |lines| == 1 {
    } else {
      JoinOfExtended(lines[1..], line);
    }
  }

  lemma BackOfJoin(lines: seq<string>)
    requires Squeezed(lines) && (lines != [] ==> lines[0] != "")
    ensures TrimEnd(Join(lines, "\n")) == Join(Back(lines), "\n")
    ensures Squeezed(Back(lines)) && (Back(lines) != [] ==> Back(lines)[|Back(lines)| - 1] != "")
    ensures lines != [] ==> Back(lines) != [] && Back(lines)[0] == lines[0]
  {
    if lines != [] {
      var back := Back(lines);
      assert back[|back| - 1] in lines;
      JoinEnds(back);
      if back != lines {
        JoinOfExtended(back, "");
        assert lines == back + [""];
        assert Join(lines, "\n") == Join(back, "\n") + "\n";
        TrimEndOfPadded(Join(back, "\n"), "\n");
      }
    }
  }

  // ---------- Main results ----------

  /** A collapsed text is made of collapsed lines. */
  lemma CollapseGivesLines(markdown: string) returns (lines: seq<string>)
    ensures Collapsed(lines) && Collapse(markdown) == Join(lines, "\n") && Lines(Collapse(markdown)) == lines
  {
    hide Squeezed, TrimEnd, TrimStart, Lines, Join;
    var kept := Squeeze(Lines(markdown));
    LinesHaveNoNewline(markdown);
    SqueezeIsSqueezed(Lines(markdown));
    FrontOfJoin(kept);
    FrontIsSqueezed(kept);
    BackOfJoin(Front(kept));
    lines := Back(Front(kept));
    CollapsedSplits(lines);
  }

  lemma CollapsedSplits(lines: seq<string>)
    requires Collapsed(lines)
    ensures Lines(Join(lines, "\n")) == lines
  {
    hide Join, Lines;
    assert Separable(lines);
    LinesOfJoin(lines);
  }

  /** No two adjacent lines of a collapsed text are blank. */
  lemma NoAdjacentBlankLines(markdown: string, i: nat)
    requires i + 1 < |Lines(Collapse(markdown))|
    ensures !(Blank(Lines(Collapse(markdown))[i]) && Blank(Lines(Collapse(markdown))[i + 1]))
  {
    var lines := CollapseGivesLines(markdown);
    assert lines[i] in lines && lines[i + 1] in lines;
    TrimmedBlankIsEmpty(lines[i]);
    TrimmedBlankIsEmpty(lines[i + 1]);
  }

  lemma TrimmedBlankIsEmpty(line: string)
    requires TrimEnd(line) == line
    ensures Blank(line) ==> line == ""
  {
    if line != "" { assert line[|line| - 1] in line; }
  }

  /** Collapsing again changes nothing. */
  lemma CollapseIsIdempotent(markdown: string)
    ensures Collapse(Collapse(markdown)) == Collapse(markdown)
  {
    hide Squeezed, Lines, Join, TrimStart, TrimEnd;
    var lines := CollapseGivesLines(markdown);
    SqueezedStays(lines);
    SolidOfEmpty();
    if lines == [] {
      FrontOfJoin(lines);
      BackOfJoin(lines);
    } else {
      FrontOfJoin(lines);
      BackOfJoin(lines);
      assert Front(lines) == lines && Back(lines) == lines;
    }
  }
}
