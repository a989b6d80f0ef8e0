/** The string operations the text algorithms share. A string is a sequence of Unicode scalars. */
module Text {
  import opened Sequences

  /** The characters with the White_Space property. */
  predicate IsWhitespace(c: char) {
    var n := c as int;
    || 0x9 <= n <= 0xD || n == 0x20 || n == 0x85 || n == 0xA0 || n == 0x1680
    || 0x2000 <= n <= 0x200A || n == 0x2028 || n == 0x2029 || n == 0x202F || n == 0x205F || n == 0x3000
  }

  predicate Blank(s: string) {
    forall c | c in s :: IsWhitespace(c)
  }

  function TrimStart(s: string): (r: string)
    ensures r == "" || !IsWhitespace(r[0])
    ensures |r| <= |s|
  {
    if s == "" || !IsWhitespace(s[0]) then s else TrimStart(s[1..])
  }

  function TrimEnd(s: string): (r: string)
    ensures r == "" || !IsWhitespace(r[|r| - 1])
    ensures r <= s
  {
    if s == "" || !IsWhitespace(s[|s| - 1]) then s else TrimEnd(s[..|s| - 1])
  }

  function Trim(s: string): string {
    TrimEnd(TrimStart(s))
  }

  /** The length of the UTF-8 form. */
  function Utf8Length(s: string): nat {
    if s == "" then 0 else
    var n := s[0] as int;
    (if n < 0x80 then 1 else if n < 0x800 then 2 else if n < 0x1_0000 then 3 else 4) + Utf8Length(s[1..])
  }

  function AsciiLower(s: string): (r: string)
    ensures |r| == |s|
  {
    seq(|s|, i requires 0 <= i < |s| => if 'A' <= s[i] <= 'Z' then ((s[i] as int) + 32) as char else s[i])
  }

  /** Lower case changes A to Z to the letters 32 places on and nothing else. */
  lemma AsciiLowerIs(s: string, i: nat)
    requires i < |s|
    ensures AsciiLower(s)[i] as int == s[i] as int + (if 65 <= s[i] as int <= 90 then 32 else 0)
  {
  }

  lemma {:induction false} Utf8LengthAdds(a: string, b: string)
    ensures Utf8Length(a + b) == Utf8Length(a) + Utf8Length(b)
  {
    if a == "" {
      assert a + b == b;
    } else {
      Utf8LengthAdds(a[1..], b);
      assert (a + b)[1..] == a[1..] + b && (a + b)[0] == a[0];
    }
  }

  /** An ASCII text has as many bytes as characters; one more character takes one to four more. */
  lemma {:induction false} Utf8LengthIs(s: string, c: char)
    ensures (forall d | d in s :: d as int < 128) ==> Utf8Length(s) == |s|
    ensures Utf8Length(s + [c]) - Utf8Length(s) ==
              if c as int < 128 then 1 else if c as int < 2048 then 2 else if c as int < 65536 then 3 else 4
  {
    Utf8LengthAdds(s, [c]);
    assert Utf8Length([c][1..]) == 0;
    if s != "" && forall d | d in s :: d as int < 128 {
      assert s[0] in s && forall d | d in s[1..] :: d in s;
      Utf8LengthIs(s[1..], c);
    }
  }

  /** The whitespace among the ASCII characters: tab, newline, vertical tab, form feed, carriage return
      and space. */
  lemma AsciiWhitespace(c: char)
    requires c as int < 128
    ensures IsWhitespace(c) <==> c as int in {9, 10, 11, 12, 13, 32}
  {
  }

  /** The first position of the character, or the length. */
  function IndexOf(s: string, c: char): (i: nat)
    ensures i <= |s| && c !in s[..i]
    ensures i < |s| ==> s[i] == c
  {
    if s == "" || s[0] == c then 0 else
    var i := 1 + IndexOf(s[1..], c);
    assert s[..i] == [s[0]] + s[1..][..i - 1];
    i
  }

  /** One line ends at a newline; a carriage return in front of the newline goes with it. */
  function WithoutReturn(line: string): string {
    if line != "" && line[|line| - 1] == '\r' then line[..|line| - 1] else line
  }

  /** `lines()`: no line follows a final newline. */
  function Lines(s: string): seq<string> {
    if s == "" then [] else
    var i := IndexOf(s, '\n');
    if i == |s| then [s] else [WithoutReturn(s[..i])] + Lines(s[i + 1..])
  }

  // ---------- The characters that are not whitespace ----------

  /** The text with its whitespace removed. */
  function Solid(s: string): (r: string)
    ensures forall c | c in r :: !IsWhitespace(c)
  {
    if s == "" then "" else (if IsWhitespace(s[0]) then "" else [s[0]]) + Solid(s[1..])
  }

  function SolidCharacter(c: char): string {
    if IsWhitespace(c) then "" else [c]
  }

  lemma SolidOfFirst(c: char, s: string)
    ensures Solid([c] + s) == SolidCharacter(c) + Solid(s)
  {
    hide IsWhitespace;
    assert ([c] + s)[1..] == s;
  }

  lemma {:induction false} SolidOfConcat(a: string, b: string)
    ensures Solid(a + b) == Solid(a) + Solid(b)
    decreases |a|
  {
    hide Solid, SolidCharacter;
    if a == "" {
      SolidOfEmpty();
      NothingAdded(b);
      NothingAdded(Solid(b));
    } else {
      var c, rest := a[0], a[1..];
      assert a == [c] + rest;
      SolidOfConcat(rest, b);
      Together([c], rest, b);
      SolidOfFirst(c, rest);
      SolidOfFirst(c, rest + b);
      Together(SolidCharacter(c), Solid(rest), Solid(b));
    }
  }

  lemma {:induction false} SolidOfBlank(s: string)
    ensures Blank(s) <==> Solid(s) == ""
  {
    if s == "" {
    } else {
      SolidOfBlank(s[1..]);
      assert s == [s[0]] + s[1..];
    }
  }

  lemma {:induction false} SolidOfTrimStart(s: string)
    ensures Solid(TrimStart(s)) == Solid(s)
  {
    if s == "" || !IsWhitespace(s[0]) {
    } else {
      SolidOfTrimStart(s[1..]);
    }
  }

  lemma {:induction false} SolidOfTrimEnd(s: string)
    ensures Solid(TrimEnd(s)) == Solid(s)
  {
    hide IsWhitespace;
    if s == "" || !IsWhitespace(s[|s| - 1]) {
    } else {
      SolidOfTrimEnd(s[..|s| - 1]);
      SolidOfConcat(s[..|s| - 1], [s[|s| - 1]]);
      assert s == s[..|s| - 1] + [s[|s| - 1]];
    }
  }

  lemma SolidOfTrim(s: string)
    ensures Solid(Trim(s)) == Solid(s)
    ensures Trim(s) == "" <==> Solid(s) == ""
  {
    SolidOfTrimStart(s);
    SolidOfTrimEnd(TrimStart(s));
    SolidOfBlank(Trim(s));
    var t := Trim(s);
    if t != "" { assert t[|t| - 1] in t; }
  }

  // ---------- Trimming ----------

  lemma {:induction false} TrimStartOfPadded(pad: string, s: string)
    requires Blank(pad)
    ensures TrimStart(pad + s) == TrimStart(s)
  {
    hide IsWhitespace;
    if pad == "" {
      assert pad + s == s;
    } else {
      assert pad[0] in pad && (pad + s)[1..] == pad[1..] + s;
      TrimStartOfPadded(pad[1..], s);
    }
  }

  lemma {:induction false} TrimEndOfPadded(s: string, pad: string)
    requires Blank(pad)
    ensures TrimEnd(s + pad) == TrimEnd(s)
    decreases |pad|
  {
    hide IsWhitespace;
    if pad == "" {
      assert s + pad == s;
    } else {
      var n := |pad| - 1;
      assert pad[n] in pad && (s + pad)[..|s + pad| - 1] == s + pad[..n];
      TrimEndOfPadded(s, pad[..n]);
    }
  }

  /** Trimming takes off whitespace, and all of it. */
  lemma {:induction false} TrimStartTakes(s: string) returns (pad: string)
    ensures Blank(pad) && s == pad + TrimStart(s)
  {
    hide IsWhitespace;
    pad := "";
    if s == "" || !IsWhitespace(s[0]) {
    } else {
      var rest := TrimStartTakes(s[1..]);
      pad := [s[0]] + rest;
    }
  }

  lemma {:induction false} TrimEndTakes(s: string) returns (pad: string)
    ensures Blank(pad) && s == TrimEnd(s) + pad
    decreases |s|
  {
    hide IsWhitespace;
    pad := "";
    if s == "" || !IsWhitespace(s[|s| - 1]) {
    } else {
      var rest := TrimEndTakes(s[..|s| - 1]);
      pad := rest + [s[|s| - 1]];
    }
  }

  /** Trimming takes whitespace off both ends until it meets other text. */
  lemma TrimIs(s: string) returns (before: string, after: string)
    ensures s == before + Trim(s) + after && Blank(before) && Blank(after)
    ensures Trim(s) != "" ==> !IsWhitespace(Trim(s)[0]) && !IsWhitespace(Trim(s)[|Trim(s)| - 1])
  {
    hide IsWhitespace;
    before := TrimStartTakes(s);
    after := TrimEndTakes(TrimStart(s));
    assert s == before + (Trim(s) + after);
    Together(before, Trim(s), after);
  }

  lemma {:induction false} TrimOfTrimEnd(s: string)
    ensures Trim(TrimEnd(s)) == Trim(s)
  {
    var pad := TrimEndTakes(s);
    TrimIgnoresEnd(TrimEnd(s), pad);
  }

  lemma {:induction false} TrimIgnoresEnd(s: string, pad: string)
    requires Blank(pad)
    ensures Trim(s + pad) == Trim(s)
  {
    hide IsWhitespace;
    if s == "" {
      assert s + pad == pad + "";
      TrimStartOfPadded(pad, "");
    } else if IsWhitespace(s[0]) {
      assert (s + pad)[1..] == s[1..] + pad;
      TrimIgnoresEnd(s[1..], pad);
    } else {
      TrimEndOfPadded(s, pad);
    }
  }

  lemma TrimOfPadded(before: string, s: string, after: string)
    requires Blank(before) && Blank(after)
    requires s != "" && !IsWhitespace(s[0]) && !IsWhitespace(s[|s| - 1])
    ensures Trim(before + s + after) == s
  {
    hide IsWhitespace, Blank, TrimStart, TrimEnd;
    Together(before, s, after);
    TrimStartOfPadded(before, s + after);
    NothingToTrim(s, after);
    TrimEndOfPadded(s, after);
  }

  lemma NothingToTrim(s: string, after: string)
    requires s != "" && !IsWhitespace(s[0]) && !IsWhitespace(s[|s| - 1])
    ensures TrimStart(s + after) == s + after && TrimEnd(s) == s
  {
    hide IsWhitespace;
    assert (s + after)[0] == s[0];
  }

  lemma IndexOfFirst(before: string, c: char, after: string)
    requires c !in before
    ensures IndexOf(before + [c] + after, c) == |before|
  {
    var s, i := before + [c] + after, IndexOf(before + [c] + after, c);
    assert s[|before|] == c;
    assert s[..|before|] == before;
  }

  // ---------- Lines ----------

  function Join(lines: seq<string>, separator: string): string {
    if lines == [] then ""
    else if |lines| == 1 then lines[0]
    else lines[0] + separator + Join(lines[1..], separator)
  }

  /** The lines in order without their whitespace. */
  function SolidAll(lines: seq<string>): string {
    if lines == [] then "" else Solid(lines[0]) + SolidAll(lines[1..])
  }

  lemma {:induction false} SolidAllOfConcat(a: seq<string>, b: seq<string>)
    ensures SolidAll(a + b) == SolidAll(a) + SolidAll(b)
  {
    hide Solid;
    if a == [] {
      assert a + b == b;
    } else {
      SolidAllOfConcat(a[1..], b);
      assert (a + b)[1..] == a[1..] + b && (a + b)[0] == a[0];
    }
  }

  lemma SolidAllOfOne(line: string)
    ensures SolidAll([line]) == Solid(line)
  {
    assert SolidAll([line][1..]) == "";
  }

  lemma {:induction false} SolidOfJoin(lines: seq<string>, separator: string)
    requires Blank(separator)
    ensures Solid(Join(lines, separator)) == SolidAll(lines)
  {
    hide Solid, Blank;
    if lines == [] {
      assert Solid("") == "" by { SolidOfEmpty(); }
    } else if |lines| == 1 {
      SolidAllOfOne(lines[0]);
      assert lines == [lines[0]];
    } else {
      SolidOfJoin(lines[1..], separator);
      SolidOfConcat(lines[0] + separator, Join(lines[1..], separator));
      SolidOfConcat(lines[0], separator);
      SolidOfBlank(separator);
    }
  }

  lemma SolidOfEmpty()
    ensures Solid("") == ""
  {
  }

  lemma {:induction false} SolidOfLines(s: string)
    ensures SolidAll(Lines(s)) == Solid(s)
    decreases |s|
  {
    hide IsWhitespace, Solid;
    if s == "" {
      SolidOfEmpty();
    } else {
      var i := IndexOf(s, '\n');
      if i == |s| {
        SolidAllOfOne(s);
      } else {
        SolidOfLines(s[i + 1..]);
        SolidWithoutReturn(s[..i]);
        assert s == s[..i] + "\n" + s[i + 1..];
        SolidAroundNewline(s[..i], s[i + 1..]);
      }
    }
  }

  lemma SolidAroundNewline(a: string, b: string)
    ensures Solid(a + "\n" + b) == Solid(a) + Solid(b)
  {
    hide Solid;
    SolidOfConcat(a + "\n", b);
    SolidOfConcat(a, "\n");
    SolidOfNewline();
  }

  lemma SolidOfNewline()
    ensures Solid("\n") == ""
  {
    SolidOfBlank("\n");
  }

  lemma SolidWithoutReturn(line: string)
    ensures Solid(WithoutReturn(line)) == Solid(line)
  {
    if WithoutReturn(line) != line {
      assert line == WithoutReturn(line) + "\r";
      SolidOfConcat(WithoutReturn(line), "\r");
      SolidOfBlank("\r");
    }
  }

  /** Lines that can stand alone: no newline inside, no carriage return at the end. */
  predicate Separable(lines: seq<string>) {
    forall line | line in lines :: '\n' !in line && (line == "" || line[|line| - 1] != '\r')
  }

  lemma LinesOfFirst(line: string, rest: string)
    requires Separable([line])
    ensures Lines(line + "\n" + rest) == [line] + Lines(rest)
  {
    var s := line + "\n" + rest;
    assert line in [line];
    IndexOfFirst(line, '\n', rest);
    assert s[..|line|] == line && s[|line| + 1..] == rest;
  }

  /** A carriage return in front of a newline ends the line, too. */
  lemma LinesOfReturn(line: string, rest: string)
    requires '\n' !in line
    ensures Lines(line + "\r\n" + rest) == [line] + Lines(rest)
  {
    var s := line + "\r\n" + rest;
    assert s == (line + "\r") + ['\n'] + rest;
    IndexOfFirst(line + "\r", '\n', rest);
    assert s[..|line| + 1] == line + "\r" && s[|line| + 2..] == rest;
  }

  lemma LinesOfOne(line: string)
    requires Separable([line]) && line != ""
    ensures Lines(line) == [line]
  {
    assert line in [line];
    assert IndexOf(line, '\n') == |line|;
  }

  /** Splitting undoes joining. */
  lemma {:induction false} LinesOfJoin(lines: seq<string>)
    requires Separable(lines) && (lines == [] || lines[|lines| - 1] != "")
    ensures Lines(Join(lines, "\n")) == lines
  {
    hide Lines, Separable;
    if lines == [] {
      assert Lines("") == [] by { LinesOfNone(); }
    } else {
      SeparableParts(lines);
      if |lines| == 1 {
        LinesOfOne(lines[0]);
      } else {
        LinesOfJoin(lines[1..]);
        LinesOfFirst(lines[0], Join(lines[1..], "\n"));
      }
    }
  }

  lemma LinesOfNone()
    ensures Lines("") == []
  {
  }

  lemma SeparableParts(lines: seq<string>)
    requires Separable(lines) && lines != []
    ensures Separable([lines[0]]) && Separable(lines[1..])
  {
  }
}
