/** How blocks follow each other in the Markdown: with exactly one blank line between them. */
module Paragraphs {
  import opened Sequences
  import opened Text
  import opened BlankLines
  import opened WordText
  import opened Markdown

  /** A page of blocks, each with one text in it. */
  predicate ArePlainBlocks(nodes: seq<Node>) {
    forall node | node in nodes ::
      && node.Element?
      && node.name in ["p", "div", "section", "article", "main", "header", "footer", "aside"]
      && |node.children| == 1 && node.children[0].Text? && !Blank(node.children[0].text)
  }

  /** The texts, their words with one space between. */
  function Texts(nodes: seq<Node>): (r: seq<string>)
    requires ArePlainBlocks(nodes)
    ensures |r| == |nodes| && forall i | 0 <= i < |nodes| :: r[i] == Join(Words(nodes[i].children[0].text), " ")
  {
    seq(|nodes|, i requires 0 <= i < |nodes| => Join(Words(nodes[i].children[0].text), " "))
  }

  predicate IsLine(s: string) {
    IsTrimmed(s) && '\n' !in s
  }

  // ---------- Lines with blank ones between ----------

  function WithBlanks(lines: seq<string>): seq<string> {
    if |lines| <= 1 then lines else [lines[0], ""] + WithBlanks(lines[1..])
  }

  lemma {:induction false} JoinWithBlanks(lines: seq<string>)
    ensures Join(WithBlanks(lines), "\n") == Join(lines, "\n\n")
    ensures lines != [] ==> WithBlanks(lines) != []
  {
    if |lines| <= 1 {
    } else {
      var rest := WithBlanks(lines[1..]);
      JoinWithBlanks(lines[1..]);
      assert WithBlanks(lines)[1..] == [""] + rest && ([""] + rest)[1..] == rest;
      assert Join([""] + rest, "\n") == "" + "\n" + Join(rest, "\n");
      assert "" + "\n" + Join(rest, "\n") == "\n" + Join(rest, "\n");
      assert lines[0] + "\n" + ("\n" + Join(rest, "\n")) == lines[0] + "\n\n" + Join(rest, "\n");
    }
  }

  lemma LineIs(s: string)
    requires IsLine(s)
    ensures TrimStart(s) == s && TrimEnd(s) == s && s != "" && s[|s| - 1] != '\r'
  {
    hide IsWhitespace;
    AsciiWhitespace('\r');
    NothingToTrim(s, "");
    assert s + "" == s;
  }

  lemma {:induction false} BlanksAreCollapsed(lines: seq<string>)
    requires forall line | line in lines :: IsLine(line)
    ensures Collapsed(WithBlanks(lines))
    ensures lines != [] ==> WithBlanks(lines) != [] && WithBlanks(lines)[0] == lines[0]
    ensures lines == [] ==> WithBlanks(lines) == []
  {
    hide TrimStart, TrimEnd, IsLine;
    if lines == [] {
    } else {
      LineIs(lines[0]);
      LineHasNoNewline(lines[0]);
      assert TrimEnd("") == "" by { NothingTrimmed(); }
      if |lines| > 1 {
        assert forall line | line in lines[1..] :: line in lines;
        BlanksAreCollapsed(lines[1..]);
      }
    }
  }

  lemma LineHasNoNewline(s: string)
    requires IsLine(s)
    ensures '\n' !in s
  {
  }

  lemma NothingTrimmed()
    ensures TrimEnd("") == ""
  {
  }

  // ---------- Collapsing lines that need no collapsing ----------

  lemma {:induction false} LinesInFront(lines: seq<string>, tail: string)
    requires lines != [] && Separable(lines)
    ensures Lines(Join(lines, "\n") + "\n" + tail) == lines + Lines(tail)
  {
    hide Lines, Separable;
    SeparableParts(lines);
    if |lines| == 1 {
      LinesOfFirst(lines[0], tail);
      assert lines == [lines[0]];
    } else {
      var rest := Join(lines[1..], "\n");
      LinesInFront(lines[1..], tail);
      LinesOfFirst(lines[0], rest + "\n" + tail);
      assert lines[0] + "\n" + rest + "\n" + tail == lines[0] + "\n" + (rest + "\n" + tail);
      assert lines == [lines[0]] + lines[1..];
      Together([lines[0]], lines[1..], Lines(tail));
    }
  }

  /** Blank lines behind collapsed ones go. */
  lemma CollapseOfCollapsed(lines: seq<string>)
    requires Collapsed(lines) && lines != []
    ensures Collapse(Join(lines, "\n") + "\n\n") == Join(lines, "\n")
  {
    hide Squeezed, Lines, Join, TrimStart, TrimEnd, Trim, Separable;
    var text := Join(lines, "\n");
    CollapsedSeparates(lines);
    LinesInFront(lines, "\n");
    assert text + "\n\n" == text + "\n" + "\n";
    LinesOfNewline();
    SqueezedStays(lines);
    OneBlankMore(lines);
    JoinOfExtended(lines, "");
    assert text + "\n" + "" == text + "\n";
    TrimIgnoresEnd(text, "\n");
    NothingTrims(lines);
  }

  lemma CollapsedSeparates(lines: seq<string>)
    requires Collapsed(lines)
    ensures Separable(lines)
  {
    forall line | line in lines ensures line == "" || line[|line| - 1] != '\r' {
      AsciiWhitespace('\r');
      assert TrimEnd(line) == line;
    }
  }

  lemma LinesOfNewline()
    ensures Lines("\n") == [""]
  {
    assert "\n" == "" + ['\n'] + "";
    IndexOfFirst("", '\n', "");
    assert "\n"[..0] == "" && "\n"[1..] == "";
    LinesOfNone();
  }

  lemma OneBlankMore(lines: seq<string>)
    requires TrailingBlanks(lines) == 0 && Squeeze(lines) == lines
    ensures Squeeze(lines + [""]) == lines + [""]
  {
    assert (lines + [""])[..|lines|] == lines;
    assert Trim("") == "";
  }

  lemma NothingTrims(lines: seq<string>)
    requires Collapsed(lines) && lines != []
    ensures Trim(Join(lines, "\n")) == Join(lines, "\n")
  {
    hide Squeezed, Join, TrimStart, TrimEnd;
    FrontOfJoin(lines);
    BackOfJoin(lines);
    assert Front(lines) == lines && Back(lines) == lines;
  }

  // ---------- One block behind the other ----------

  lemma OneText(text: string)
    requires !Blank(text)
    ensures Trim(Trim(InlineText("", text))) == CollectText(text) && IsLine(CollectText(text))
  {
    hide Words, IsWhitespace, TrimStart, TrimEnd, Trim, Blank;
    WordsOfCollectText(text);
    NewlineIsBlank();
    var line := CollectText(text);
    TextHasSomething(text);
    assert "" + "" + line == line;
    TrimOfPadded("", line, "");
    TrimOfPadded("", line, " ");
    assert "" + line + "" == line && "" + line + " " == line + " ";
    CollectTextIsOneLine(text);
  }

  lemma TextHasSomething(text: string)
    requires !Blank(text)
    ensures text != ""
  {
  }

  lemma CollectTextIsOneLine(text: string)
    ensures '\n' !in CollectText(text)
  {
    WordsAreWords(text);
    AsciiWhitespace('\n');
    JoinHasOnly(Words(text));
  }

  lemma {:induction false} JoinHasOnly(words: seq<string>)
    requires forall w | w in words :: '\n' !in w
    ensures '\n' !in Join(words, " ")
  {
    if |words| > 1 {
      JoinHasOnly(words[1..]);
    }
  }

  lemma {:induction false} JoinOfOneMore(lines: seq<string>, line: string)
    ensures Join(lines + [line], "\n\n") == if lines == [] then line else Join(lines, "\n\n") + "\n\n" + line
  {
    if lines == [] {
    } else {
      assert (lines + [line])[1..] == lines[1..] + [line];
      JoinOfOneMore(lines[1..], line);
      if |lines| == 1 {
        assert lines[1..] + [line] == [line];
      }
    }
  }

  lemma {:induction false} JoinIsTrimmed(lines: seq<string>)
    requires lines != [] && forall line | line in lines :: IsLine(line)
    ensures EndsInText(Join(lines, "\n\n"))
  {
    hide IsWhitespace;
    assert lines[0] in lines;
    if |lines| > 1 {
      assert forall line | line in lines[1..] :: line in lines;
      JoinIsTrimmed(lines[1..]);
    }
  }

  lemma BlockBehind(lines: seq<string>, content: string, line: string)
    requires (forall l | l in lines :: IsLine(l)) && Trim(content) == line && line != ""
    ensures Block(if lines == [] then "" else Join(lines, "\n\n") + "\n\n", content)
         == Join(lines + [line], "\n\n") + "\n\n"
  {
    hide IsLine, TrimEnd, Trim, Join, Blank;
    NewlineIsBlank();
    JoinOfOneMore(lines, line);
    assert TrimEnd("") == "" by { NothingTrimmed(); }
    if lines != [] {
      var before := Join(lines, "\n\n");
      JoinIsTrimmed(lines);
      EndIsKept(before);
    }
  }

  lemma EndIsKept(s: string)
    requires EndsInText(s)
    ensures TrimEnd(s + "\n\n") == s && s != ""
  {
    hide IsWhitespace;
    NewlineIsBlank();
    TrimEndOfPadded(s, "\n\n");
  }

  lemma {:induction false} ParagraphsRender(host: Host, nodes: seq<Node>, inPre: bool)
    requires ArePlainBlocks(nodes)
    ensures RenderAll(host, nodes, inPre, false, "") == if nodes == [] then "" else Join(Texts(nodes), "\n\n") + "\n\n"
    ensures forall line | line in Texts(nodes) :: IsLine(line)
  {
    hide IsLine, Join, Block, Trim, InlineText, Words, Blank, Texts, RenderNode;
    if nodes == [] {
      TextsOfNone();
    } else {
      var (init, node) := (nodes[..|nodes| - 1], nodes[|nodes| - 1]);
      assert node in nodes && forall n | n in init :: n in nodes;
      ParagraphsRender(host, init, inPre);
      var text := node.children[0].text;
      OneText(text);
      OneBlock(host, node, inPre, RenderAll(host, init, inPre, false, ""));
      TextsOfMore(nodes);
      CollectTextIsSomething(text);
      BlockBehind(Texts(init), Trim(InlineText("", text)), CollectText(text));
      TextsOfNone();
    }
  }

  lemma TextsOfNone()
    ensures Texts([]) == []
    ensures forall nodes | ArePlainBlocks(nodes) && nodes != [] :: Texts(nodes) != []
  {
  }

  lemma TextsOfMore(nodes: seq<Node>)
    requires nodes != [] && ArePlainBlocks(nodes) && ArePlainBlocks(nodes[..|nodes| - 1])
    ensures nodes[|nodes| - 1] in nodes
    ensures Texts(nodes) == Texts(nodes[..|nodes| - 1]) + [CollectText(nodes[|nodes| - 1].children[0].text)]
  {
    hide Words, Join;
  }

  lemma CollectTextIsSomething(text: string)
    requires !Blank(text)
    ensures CollectText(text) != ""
  {
    WordsOfCollectText(text);
  }

  lemma OneBlock(host: Host, node: Node, inPre: bool, out: string)
    requires node.Element? && |node.children| == 1 && node.children[0].Text?
    requires node.name in ["p", "div", "section", "article", "main", "header", "footer", "aside"]
    ensures RenderNode(host, node, inPre, false, out) == Block(out, Trim(InlineText("", node.children[0].text)))
  {
    hide Block, Trim, InlineText;
    var text := node.children[0];
    assert node.children[..0] == [] && node.children == [text];
    assert RenderAll(host, [], false, false, "") == "";
    assert RenderNode(host, text, false, false, "") == InlineText("", text.text);
    assert Content(host, node.children, false) == RenderAll(host, node.children, false, false, "");
    assert RenderNode(host, node, inPre, false, out) == RenderElement(host, node, inPre, false, out);
    assert IsBlock(node.name) && !IsDropped(node.name) && !IsHeading(node.name);
  }

  // ---------- Main result ----------

  /** A page of blocks with a text each becomes those texts, one space between their words and one blank line
      between the blocks. */
  lemma BlocksAreParagraphs(host: Host, root: Node)
    requires root.Element? && ArePlainBlocks(root.children)
    ensures Render(host, root) == Join(Texts(root.children), "\n\n")
  {
    hide Join, IsLine, Collapsed, RenderAll, Collapse;
    ParagraphsRender(host, root.children, root.name == "pre");
    var texts := Texts(root.children);
    if root.children == [] {
      NothingCollapses();
    } else {
      JoinWithBlanks(texts);
      BlanksAreCollapsed(texts);
      CollapseOfCollapsed(WithBlanks(texts));
    }
  }

  lemma NothingCollapses()
    ensures Collapse("") == "" && Join([], "\n\n") == ""
  {
    LinesOfNone();
    assert Squeeze([]) == [];
    assert Join([], "\n") == "" && Trim("") == "";
  }
}
