/**
 The words of a rendering. Every push moves whitespace about; this says where words stay apart and
 where they run together, for all trees, and when the words of a document are those a reader sees.
 */
module MarkdownWords {
  import opened Wrappers
  import opened Sequences
  import opened Text
  import opened BlankLines
  import opened WordText
  import opened Markdown

  // ---------- One push ----------

  /** Pushing text keeps the words on both sides; the last and the first become one exactly when no
      whitespace is between them in either text. Text without words is dropped, its whitespace with it. */
  lemma WordsOfInlineText(out: string, text: string)
    ensures Blank(text) ==> InlineText(out, text) == out
    ensures !Blank(text) ==> Alike(InlineText(out, text), out + text)
    ensures !Blank(text) ==>
              Words(InlineText(out, text)) == Meet(Words(out), Words(text), EndsInText(out) && StartsInText(text))
  {
    hide Words, IsWhitespace, Meet, CollectText, Blank;
    WordsOfCollectText(text);
    if !Blank(text) {
      WordsOfConcat(out, text);
      SomethingThere(text);
      var normalized := CollectText(text);
      var gap := if IsWhitespace(text[0]) && out != "" && !EndsInSpace(out) then " " else "";
      JoinedWords(out, text, gap, normalized);
      SpacedAtEnd(out + gap + normalized, out + text, text);
    }
  }

  lemma SomethingThere(text: string)
    requires !Blank(text)
    ensures text != ""
  {
  }

  /** The space behind a text, if it had one. */
  lemma SpacedAtEnd(joined: string, whole: string, text: string)
    requires EndsInText(joined) && Words(joined) == Words(whole) && text != ""
    requires whole != "" && whole[|whole| - 1] == text[|text| - 1]
    ensures Alike(if EndsInSpace(text) && !EndsInSpace(joined) then joined + " " else joined, whole)
  {
    hide Words, IsWhitespace, Blank;
    NewlineIsBlank();
    SpaceBehind(joined, " ");
  }

  lemma JoinedWords(out: string, text: string, gap: string, normalized: string)
    requires text != "" && IsTrimmed(normalized) && Words(normalized) == Words(text)
    requires gap == if IsWhitespace(text[0]) && out != "" && !EndsInSpace(out) then " " else ""
    ensures Words(out + gap + normalized) == Words(out + text) && EndsInText(out + gap + normalized)
  {
    hide Words, IsWhitespace, Blank;
    NewlineIsBlank();
    WordsOfConcat(out, text);
    if gap == " " {
      WordsApart(out, " ", normalized);
    } else {
      assert out + gap + normalized == out + normalized;
      WordsOfConcat(out, normalized);
    }
  }

  /** A block keeps the words of the buffer and of its content, and they never run together. */
  lemma WordsOfBlock(out: string, content: string)
    ensures Words(Block(out, content)) == Words(out) + Words(content)
    ensures Blank(content) ==> Block(out, content) == out
    ensures !Blank(content) ==> !EndsInText(Block(out, content))
  {
    hide Words, IsWhitespace, Trim, TrimEnd, Blank;
    NewlineIsBlank();
    WordsOfTrim(content);
    WordsOfTrimEnd(out);
    BlankHasNoWords(out);
    BlankHasNoWords(content);
    if !Blank(content) {
      if TrimEnd(out) == "" {
        SpaceInFront(out, Trim(content));
        SpaceBehind(out + Trim(content), "\n\n");
      } else {
        WordsApart(TrimEnd(out), "\n\n", Trim(content));
        SpaceBehind(TrimEnd(out) + "\n\n" + Trim(content), "\n\n");
      }
    }
  }

  // ---------- The text a tree stands for ----------

  /** A text set apart. */
  function Apart(s: string): string {
    " " + s + " "
  }

  function Paragraph(s: string): string {
    if Blank(s) then "" else Apart(s)
  }

  function Around(mark: string, s: string): string {
    if Blank(s) then "" else mark + CollectText(s) + mark
  }

  /** What a node adds to the text of its surroundings. Nothing here depends on the buffer. */
  function Flow(host: Host, node: Node, inPre: bool, preserve: bool): string
    decreases node, 1
  {
    match node
    case Text(text) => if !preserve && Blank(text) then "" else text
    case Other(children) => FlowAll(host, children, false, preserve)
    case Element(_, _, _) => FlowElement(host, node, inPre, preserve)
  }

  function FlowElement(host: Host, node: Node, inPre: bool, preserve: bool): string
    requires node.Element?
    decreases node, 0
  {
    var (name, children) := (node.name, node.children);
    var inner := FlowAll(host, children, false, false);
    if name in ["script", "style", "noscript", "template", "svg"] then ""
    else if name in ["h1", "h2", "h3", "h4", "h5", "h6"] then Apart(HeadingMark(name) + " " + inner)
    else if name in ["p", "div", "section", "article", "main", "header", "footer", "aside"] then Paragraph(inner)
    else if name == "br" then "\n"
    else if name == "hr" then Apart("---")
    else if name == "strong" || name == "b" then Around("**", inner)
    else if name == "em" || name == "i" then Around("*", inner)
    else if name == "code" && inPre then FlowAll(host, children, false, true)
    else if name == "code" then
      if Content(host, children, true) == "" then "" else "`" + CollectText(FlowAll(host, children, false, true)) + "`"
    else if name == "pre" then
      if Blank(AllText(children)) then "" else Apart("```" + Apart(AllText(children)) + "```")
    else if name == "a" then 
      LinkText(if "href" in node.attributes then host.resolve(node.attributes["href"]) else None, inner)
    else if name == "img" then ImageText(host, node.attributes)
    else if name == "ul" then Paragraph(FlowItems(host, children, false))
    else if name == "ol" then Paragraph(FlowItems(host, children, true))
    else if name == "li" then Apart("- " + inner)
    else if name == "blockquote" then Paragraph(QuoteText(Lines(Trim(Content(host, children, false)))))
    else if name == "table" then Paragraph(host.table(node))
    else FlowAll(host, children, false, preserve)
  }

  function FlowAll(host: Host, nodes: seq<Node>, inPre: bool, preserve: bool): string
    decreases nodes, 0
  {
    if nodes == [] then "" else
    FlowAll(host, nodes[..|nodes| - 1], inPre, preserve) + Flow(host, nodes[|nodes| - 1], inPre, preserve)
  }

  /** The items of a list, each behind its number or dash. */
  function FlowItems(host: Host, nodes: seq<Node>, ordered: bool): string
    decreases nodes, 1
  {
    if nodes == [] then "" else
    var (init, node) := (nodes[..|nodes| - 1], nodes[|nodes| - 1]);
    FlowItems(host, init, ordered)
    + if node.Element? && node.name == "li" then
        ItemText(if ordered then Decimal(ItemCount(init) + 1) + "." else "-",
                 FlowAll(host, node.children, false, false))
      else ""
  }

  function HeadingMark(name: string): string {
    match name
    case "h1" => "#"
    case "h2" => "##"
    case "h3" => "###"
    case "h4" => "####"
    case "h5" => "#####"
    case _ => "######"
  }

  function ItemText(prefix: string, content: string): string {
    if Blank(content) then "" else " " + prefix + " " + content + " "
  }

  function LinkText(href: Option<string>, content: string): string {
    match href
    case None => CollectText(content)
    case Some(url) => if Blank(content) then url else "[" + CollectText(content) + "](" + url + ")"
  }

  function ImageText(host: Host, attributes: map<string, string>): string {
    match host.resolve(if "src" in attributes then attributes["src"] else "")
    case None => ""
    case Some(url) => "![" + (if "alt" in attributes then Trim(attributes["alt"]) else "") + "](" + url + ")"
  }

  /** One mark in front of each line. */
  function QuoteText(lines: seq<string>): string {
    if lines == [] then "" else QuoteText(lines[..|lines| - 1]) + " > " + lines[|lines| - 1]
  }

  // ---------- The rendering has the words of that text ----------

  /** A block adds its content set apart. */
  lemma BlockIsParagraph(out: string, content: string, text: string)
    requires Words(content) == Words(text)
    ensures Alike(Block(out, content), out + Paragraph(text))
  {
    hide Words, IsWhitespace, Block, Blank;
    NewlineIsBlank();
    WordsOfBlock(out, content);
    BlankHasNoWords(content);
    BlankHasNoWords(text);
    if Blank(text) {
      assert out + "" == out;
    } else {
      ApartIs(out, text);
    }
  }

  lemma ApartIs(out: string, text: string)
    ensures Words(out + Apart(text)) == Words(out) + Words(text) && !EndsInText(out + Apart(text))
    ensures Words(Apart(text)) == Words(text) && !Blank(text) ==> !Blank(Apart(text))
  {
    hide Words, IsWhitespace, Blank;
    NewlineIsBlank();
    assert out + Apart(text) == (out + " " + text) + " ";
    SpaceBehind(out + " " + text, " ");
    WordsApart(out, " ", text);
    SpaceBehind(" " + text, " ");
    SpaceInFront(" ", text);
    BlankHasNoWords(text);
    BlankHasNoWords(Apart(text));
  }

  /** Marks close around the trimmed content. */
  lemma MarksAreAround(out: string, mark: string, content: string, text: string)
    requires Words(content) == Words(text)
    ensures Alike(Marks(out, mark, content), out + Around(mark, text))
  {
    hide Words, IsWhitespace, Blank, Trim, CollectText;
    WordsOfTrim(content);
    WordsOfCollectText(text);
    BlankHasNoWords(content);
    BlankHasNoWords(text);
    if Blank(text) {
      assert out + "" == out;
    } else {
      TextBetween(out + mark, Trim(content), CollectText(text), mark);
      assert out + (mark + CollectText(text) + mark) == out + mark + CollectText(text) + mark;
    }
  }

  lemma CodeIsAround(out: string, content: string, text: string)
    requires Words(content) == Words(text) && content != ""
    ensures Alike(CodeSpan(out, content), out + ("`" + CollectText(text) + "`"))
  {
    hide Words, IsWhitespace, Blank, Trim, CollectText;
    WordsOfTrim(content);
    WordsOfCollectText(text);
    BlankHasNoWords(content);
    BlankHasNoWords(text);
    assert out + ("`" + CollectText(text) + "`") == out + "`" + CollectText(text) + "`";
    if !Blank(text) {
      TextBetween(out + "`", Trim(content), CollectText(text), "`");
    }
  }

  lemma LinkIsText(out: string, href: Option<string>, content: string, text: string)
    requires Words(content) == Words(text)
    ensures Alike(Link(out, href, Trim(content)), out + LinkText(href, text))
  {
    hide Words, IsWhitespace, Blank, Trim, CollectText;
    WordsOfTrim(content);
    WordsOfCollectText(text);
    BlankHasNoWords(content);
    BlankHasNoWords(text);
    if !Blank(text) {
      if href.None? {
        TextBetween(out, Trim(content), CollectText(text), "");
        assert out + Trim(content) + "" == out + Trim(content);
        assert out + CollectText(text) + "" == out + CollectText(text);
      } else {
        var after := "](" + href.value + ")";
        TextBetween(out + "[", Trim(content), CollectText(text), after);
        assert out + ("[" + CollectText(text) + "](" + href.value + ")") == out + "[" + CollectText(text) + after;
        assert out + "[" + Trim(content) + "](" + href.value + ")" == out + "[" + Trim(content) + after;
      }
    }
  }

  /** A heading, a rule or a loose item: a mark, some space and the content. */
  lemma MarkedIsApart(out: string, mark: string, content: string, text: string)
    requires Words(content) == Words(text) && Words(mark) != []
    ensures Alike(Block(out, mark + " " + Trim(content)), out + Apart(mark + " " + text))
  {
    hide Words, IsWhitespace, Blank, Trim, Block;
    NewlineIsBlank();
    WordsOfTrim(content);
    WordsApart(mark, " ", Trim(content));
    WordsApart(mark, " ", text);
    var all := mark + " " + text;
    BlankHasNoWords(all);
    BlockIsParagraph(out, mark + " " + Trim(content), all);
  }

  lemma HeadingIsApart(out: string, name: string, content: string, text: string)
    requires IsHeading(name) && Words(content) == Words(text)
    ensures Alike(Block(out, Hashes(name) + " " + Trim(content)), out + Apart(HeadingMark(name) + " " + text))
  {
    hide Words, IsWhitespace, Block, Trim;
    HashesAre(name);
    WordIsOne(HeadingMark(name));
    MarkedIsApart(out, HeadingMark(name), content, text);
  }

  lemma HashesAre(name: string)
    requires IsHeading(name)
    ensures Hashes(name) == HeadingMark(name) && IsWord(HeadingMark(name))
  {
  }

  lemma RuleIsApart(out: string)
    ensures Alike(Block(out, "---"), out + Apart("---"))
  {
    assert IsWord("---");
    WordIsOne("---");
    BlankHasNoWords("---");
    BlockIsParagraph(out, "---", "---");
  }

  lemma LooseItemIsApart(out: string, content: string, text: string)
    requires Words(content) == Words(text)
    ensures Alike(Block(out, "- " + Trim(content)), out + Apart("- " + text))
  {
    hide Words, IsWhitespace, Block, Trim, Apart;
    DashIsWord();
    MarkedIsApart(out, "-", content, text);
    assert "-" + " " == "- ";
  }

  lemma DashIsWord()
    ensures Words("-") == ["-"]
  {
    assert IsWord("-");
    WordIsOne("-");
  }

  // ---------- Code blocks, quotes and lists ----------

  lemma {:induction false} WordsOfTrimNewlines(s: string)
    ensures Words(TrimNewlines(s)) == Words(s)
    decreases |s|
  {
    hide Words, Blank;
    NewlineIsBlank();
    if s != "" && s[0] == '\n' {
      WordsOfTrimNewlines(s[1..]);
      assert s == "\n" + s[1..];
      SpaceInFront("\n", s[1..]);
    } else if s != "" && s[|s| - 1] == '\n' {
      WordsOfTrimNewlines(s[..|s| - 1]);
      assert s == s[..|s| - 1] + "\n";
      SpaceBehind(s[..|s| - 1], "\n");
    }
  }

  lemma CodeBlockIsApart(out: string, content: string)
    ensures Alike(CodeBlock(out, content),
                  out + if Blank(content) then "" else Apart("```" + Apart(content) + "```"))
  {
    hide Words, IsWhitespace, Blank, Trim, TrimNewlines, Block;
    NewlineIsBlank();
    WordsOfTrim(content);
    if Blank(content) {
      assert out + "" == out;
    } else {
      var fenced, text := Fenced(TrimNewlines(content)), "```" + Apart(content) + "```";
      WordsOfTrimNewlines(content);
      Fences("\n", TrimNewlines(content));
      Fences(" ", content);
      assert fenced == "```" + "\n" + TrimNewlines(content) + "\n" + "```";
      assert text == "```" + " " + content + " " + "```";
      BlankHasNoWords(text);
      BlockIsParagraph(out, fenced, text);
    }
  }

  lemma Fences(pad: string, body: string)
    requires Blank(pad) && pad != ""
    ensures Words("```" + pad + body + pad + "```") == ["```"] + Words(body) + ["```"]
  {
    hide Words, IsWhitespace, Blank;
    FenceIsWord();
    WordsApart("```", pad, body);
    WordsApart("```" + pad + body, pad, "```");
  }

  lemma FenceIsWord()
    ensures Words("```") == ["```"]
  {
    assert IsWord("```");
    WordIsOne("```");
  }

  lemma {:induction false} QuoteIsText(lines: seq<string>)
    ensures AllWords(QuoteLines(lines)) == Words(QuoteText(lines))
    decreases |lines|
  {
    hide Words, AllWords;
    NoWords();
    if lines == [] {
      AllWordsOfNone();
    } else {
      var (init, line) := (lines[..|lines| - 1], lines[|lines| - 1]);
      QuoteIsText(init);
      assert QuoteLines(lines) == QuoteLines(init) + ["> " + line];
      AllWordsOfConcat(QuoteLines(init), ["> " + line]);
      AllWordsOfOne("> " + line);
      OneMoreQuote(QuoteText(init), line);
    }
  }

  lemma OneMoreQuote(before: string, line: string)
    ensures Words(before + " > " + line) == Words(before) + Words("> " + line)
  {
    hide Words;
    NewlineIsBlank();
    assert before + " > " + line == before + " " + ("> " + line);
    WordsApart(before, " ", "> " + line);
  }

  lemma {:induction false} WordsOfContinued(lines: seq<string>)
    ensures AllWords(Continued(lines)) == AllWords(lines)
    decreases |lines|
  {
    hide Words, Trim, AllWords, Blank;
    NewlineIsBlank();
    if lines == [] {
      assert Continued(lines) == lines;
    } else {
      var (init, line) := (lines[..|lines| - 1], lines[|lines| - 1]);
      WordsOfContinued(init);
      AllWordsOfConcat(init, [line]);
      AllWordsOfConcat(Continued(init), ["  " + line]);
      AllWordsOfOne(line);
      AllWordsOfOne("  " + line);
      SpaceInFront("  ", line);
      WordsOfTrim(line);
      BlankHasNoWords(line);
      assert lines == init + [line] && Continued(init) + [] == Continued(init);
    }
  }

  /** The lines of an item have its prefix in front of the words of its content. */
  lemma WordsOfItem(prefix: string, content: string, text: string)
    requires Words(content) == Words(text)
    ensures AllWords(ItemLines(prefix + " ", content)) == Words(ItemText(prefix, text))
  {
    hide Words, IsWhitespace, Blank, Trim, Lines, Continued, AllWords;
    NewlineIsBlank();
    NoWords();
    WordsOfTrim(content);
    BlankHasNoWords(content);
    BlankHasNoWords(text);
    WordsOfLines(Trim(content));
    var lines := Lines(Trim(content));
    AllWordsOfNone();
    if Blank(text) {
      LinesOfNone();
    } else {
      WordsOfItemLines(prefix, lines);
      WordsApart(prefix, " ", text);
      ItemApart(prefix, text);
    }
  }

  lemma WordsOfItemLines(prefix: string, lines: seq<string>)
    requires lines != []
    ensures AllWords([prefix + " " + lines[0]] + Continued(lines[1..])) == Words(prefix) + AllWords(lines)
  {
    hide Words, Continued, AllWords, Blank;
    NewlineIsBlank();
    WordsOfContinued(lines[1..]);
    AllWordsOfConcat([lines[0]], lines[1..]);
    AllWordsOfConcat([prefix + " " + lines[0]], Continued(lines[1..]));
    AllWordsOfOne(lines[0]);
    AllWordsOfOne(prefix + " " + lines[0]);
    assert lines == [lines[0]] + lines[1..];
    WordsApart(prefix, " ", lines[0]);
  }

  lemma ItemApart(prefix: string, text: string)
    ensures Words(" " + prefix + " " + text + " ") == Words(prefix + " " + text)
  {
    hide Words;
    NewlineIsBlank();
    assert " " + prefix + " " + text + " " == " " + (prefix + " " + text) + " ";
    SpaceBehind(" " + (prefix + " " + text), " ");
    SpaceInFront(" ", prefix + " " + text);
  }

  lemma AllWordsOfNone()
    ensures AllWords([]) == []
  {
  }

  lemma OneMoreItem(before: string, prefix: string, text: string)
    ensures Words(before + ItemText(prefix, text)) == Words(before) + Words(ItemText(prefix, text))
  {
    hide Words, IsWhitespace, Blank;
    NoWords();
    NewlineIsBlank();
    if Blank(text) {
      assert before + "" == before;
    } else {
      assert before + (" " + prefix + " " + text + " ") == before + " " + (prefix + " " + text + " ");
      WordsApart(before, " ", prefix + " " + text + " ");
      assert " " + prefix + " " + text + " " == " " + (prefix + " " + text + " ");
      SpaceInFront(" ", prefix + " " + text + " ");
    }
  }

  // ---------- Whole trees ----------

  /** Whatever the buffer holds, rendering a node adds the node's own text to it, as far as words go. */
  lemma {:induction false} NodeAddsFlow(host: Host, node: Node, inPre: bool, preserve: bool, out: string)
    ensures Alike(RenderNode(host, node, inPre, preserve, out), out + Flow(host, node, inPre, preserve))
    decreases node, 1
  {
    hide Words, IsWhitespace, InlineText, Blank;
    match node
    case Text(text) =>
      WordsOfInlineText(out, text);
      assert out + "" == out;
    case Other(children) =>
      NodesAddFlow(host, children, false, preserve, out);
    case Element(_, _, _) =>
      ElementAddsFlow(host, node, inPre, preserve, out);
  }

  lemma {:induction false} NodesAddFlow(host: Host, nodes: seq<Node>, inPre: bool, preserve: bool, out: string)
    ensures Alike(RenderAll(host, nodes, inPre, preserve, out), out + FlowAll(host, nodes, inPre, preserve))
    decreases nodes, 0
  {
    hide Words, IsWhitespace, RenderNode, Flow;
    if nodes == [] {
      assert out + "" == out;
    } else {
      var (init, node) := (nodes[..|nodes| - 1], nodes[|nodes| - 1]);
      NodesAddFlow(host, init, inPre, preserve, out);
      var before := RenderAll(host, init, inPre, preserve, out);
      NodeAddsFlow(host, node, inPre, preserve, before);
      AlikeBehind(before, out + FlowAll(host, init, inPre, preserve), Flow(host, node, inPre, preserve));
      Together(out, FlowAll(host, init, inPre, preserve), Flow(host, node, inPre, preserve));
    }
  }

  lemma {:induction false} ContentFlows(host: Host, nodes: seq<Node>, preserve: bool)
    ensures Words(Content(host, nodes, preserve)) == Words(FlowAll(host, nodes, false, preserve))
    decreases nodes, 1
  {
    hide Words, FlowAll, RenderAll;
    NodesAddFlow(host, nodes, false, preserve, "");
    assert "" + FlowAll(host, nodes, false, preserve) == FlowAll(host, nodes, false, preserve);
  }

  lemma {:induction false} ItemsFlow(host: Host, nodes: seq<Node>, ordered: bool)
    ensures AllWords(ListLines(host, nodes, ordered)) == Words(FlowItems(host, nodes, ordered))
    decreases nodes, 2
  {
    hide Words, AllWords, ItemLines, ItemText, Content, FlowAll, Decimal, ItemCount;
    NoWords();
    AllWordsOfNone();
    if nodes == [] {
    } else {
      var (init, node) := (nodes[..|nodes| - 1], nodes[|nodes| - 1]);
      ItemsFlow(host, init, ordered);
      if IsItem(node) {
        var mark := if ordered then Decimal(ItemCount(init) + 1) + "." else "-";
        var content, text := Content(host, node.children, false), FlowAll(host, node.children, false, false);
        ContentFlows(host, node.children, false);
        PrefixIs(ordered, ItemCount(init) + 1);
        WordsOfItem(mark, content, text);
        AllWordsOfConcat(ListLines(host, init, ordered), ItemLines(mark + " ", content));
        OneMoreItem(FlowItems(host, init, ordered), mark, text);
      } else {
        assert ListLines(host, nodes, ordered) == ListLines(host, init, ordered);
        assert FlowItems(host, nodes, ordered) == FlowItems(host, init, ordered);
      }
    }
  }

  lemma PrefixIs(ordered: bool, number: nat)
    ensures ItemPrefix(ordered, number) == (if ordered then Decimal(number) + "." else "-") + " "
  {
    hide Decimal;
    if ordered {
      assert Decimal(number) + ". " == Decimal(number) + "." + " ";
    } else {
      assert "- " == "-" + " ";
    }
  }

  lemma {:induction false} ElementAddsFlow(host: Host, node: Node, inPre: bool, preserve: bool, out: string)
    requires node.Element?
    ensures Alike(RenderElement(host, node, inPre, preserve, out), out + FlowElement(host, node, inPre, preserve))
    decreases node, 0
  {
    hide Words, EndsInText, Block, Marks, CodeSpan, CodeBlock, Link, LinkText, Image, ImageText, Content, RenderAll;
    hide FlowAll, FlowItems, Apart, Paragraph, Around, QuoteText, QuoteLines, Blank, CollectText;
    hide Trim, Join, Lines, IsWhitespace, Hashes, ListLines, AllText, AllWords;
    var (name, children) := (node.name, node.children);
    var content, text := Content(host, children, false), FlowAll(host, children, false, false);
    ContentFlows(host, children, false);
    WordsOfTrim(content);
    if IsDropped(name) {
      assert out + "" == out;
    } else if IsHeading(name) {
      HeadingIsApart(out, name, content, text);
    } else if IsBlock(name) {
      BlockIsParagraph(out, Trim(content), text);
    } else if name == "br" {
    } else if name == "hr" {
      RuleIsApart(out);
    } else if IsStrong(name) {
      MarksAreAround(out, "**", content, text);
    } else if IsEmphasis(name) {
      MarksAreAround(out, "*", content, text);
    } else if name == "code" && inPre {
      NodesAddFlow(host, children, false, true, out);
    } else if name == "code" {
      CodeFlows(host, children, out);
    } else if name == "pre" {
      CodeBlockIsApart(out, AllText(children));
    } else if name == "a" {
      LinkIsText(out, Href(host, node.attributes), content, text);
    } else if name == "img" {
      ImageIsText(host, node.attributes);
    } else if IsList(name) {
      ListIsParagraph(host, children, name == "ol", out);
    } else if name == "li" {
      LooseItemIsApart(out, content, text);
    } else if name == "blockquote" {
      QuoteIsParagraph(out, Lines(Trim(content)));
    } else if name == "table" {
      BlockIsParagraph(out, host.table(node), host.table(node));
    } else {
      NodesAddFlow(host, children, false, preserve, out);
    }
  }

  lemma ImageIsText(host: Host, attributes: map<string, string>)
    ensures Image(host, attributes) == ImageText(host, attributes)
  {
    assert Trim("") == "";
  }

  lemma QuoteIsParagraph(out: string, lines: seq<string>)
    ensures Alike(Block(out, Join(QuoteLines(lines), "\n")), out + Paragraph(QuoteText(lines)))
  {
    QuoteIsText(lines);
    WordsOfJoinedLines(QuoteLines(lines));
    BlockIsParagraph(out, Join(QuoteLines(lines), "\n"), QuoteText(lines));
  }

  lemma {:induction false} CodeFlows(host: Host, nodes: seq<Node>, out: string)
    ensures Alike(CodeSpan(out, Content(host, nodes, true)),
                  out + if Content(host, nodes, true) == "" then ""
                        else "`" + CollectText(FlowAll(host, nodes, false, true)) + "`")
    decreases nodes, 2
  {
    hide Words, EndsInText, Content, FlowAll, CollectText;
    ContentFlows(host, nodes, true);
    if Content(host, nodes, true) == "" {
      assert out + "" == out;
    } else {
      CodeIsAround(out, Content(host, nodes, true), FlowAll(host, nodes, false, true));
    }
  }

  lemma {:induction false} ListIsParagraph(host: Host, nodes: seq<Node>, ordered: bool, out: string)
    ensures Alike(Block(out, Join(ListLines(host, nodes, ordered), "\n")),
                  out + Paragraph(FlowItems(host, nodes, ordered)))
    decreases nodes, 3
  {
    hide Words, EndsInText, ListLines, FlowItems, Block, Paragraph, Join, AllWords;
    ItemsFlow(host, nodes, ordered);
    WordsOfJoinedLines(ListLines(host, nodes, ordered));
    BlockIsParagraph(out, Join(ListLines(host, nodes, ordered), "\n"), FlowItems(host, nodes, ordered));
  }

  /** The words of a rendering are those of the text the tree stands for, in order: blocks, headings, rules,
      list items and quotes stand apart, marks close around the trimmed content, and text without words is
      left out together with its whitespace. */
  lemma RenderingFlows(host: Host, root: Node)
    requires root.Element?
    ensures Words(Render(host, root)) == Words(FlowAll(host, root.children, root.name == "pre", false))
  {
    hide Words, FlowAll, RenderAll, Collapse;
    var out := RenderAll(host, root.children, root.name == "pre", false, "");
    NodesAddFlow(host, root.children, root.name == "pre", false, "");
    assert "" + FlowAll(host, root.children, root.name == "pre", false)
        == FlowAll(host, root.children, root.name == "pre", false);
    CollapseKeepsWords(out);
  }

  // ---------- Lists and code ----------

  function ItemsIn(nodes: seq<Node>): set<int> {
    set i | 0 <= i < |nodes| && nodes[i].Element? && nodes[i].name == "li"
  }

  /** An item has the number of its place among the items. */
  lemma {:induction false} ItemCountIs(nodes: seq<Node>)
    ensures ItemCount(nodes) == |ItemsIn(nodes)|
  {
    hide ItemsIn;
    NoItems();
    if nodes == [] {
    } else {
      var n := |nodes| - 1;
      ItemCountIs(nodes[..n]);
      OneNodeCounts(nodes[..n], nodes[n]);
      assert nodes == nodes[..n] + [nodes[n]];
    }
  }

  lemma NoItems()
    ensures ItemsIn([]) == {}
  {
  }

  lemma OneNodeCounts(nodes: seq<Node>, node: Node)
    ensures |ItemsIn(nodes + [node])| == |ItemsIn(nodes)| + if IsItem(node) then 1 else 0
  {
    var more := nodes + [node];
    if IsItem(node) {
      assert ItemsIn(more) == ItemsIn(nodes) + {|nodes|};
    } else {
      assert ItemsIn(more) == ItemsIn(nodes);
    }
  }

  /** A pre element takes all text below it, one text after the other. */
  lemma AllTextIs(nodes: seq<Node>, node: Node)
    ensures AllText([]) == ""
    ensures AllText(nodes + [node]) == AllText(nodes)
              + if node.Text? then node.text else AllText(node.children)
  {
    assert (nodes + [node])[..|nodes|] == nodes;
  }

  /** A code block is freed of the newlines around it and of nothing else. */
  lemma {:induction false} OnlyNewlinesGo(s: string) returns (before: string, after: string)
    ensures s == before + TrimNewlines(s) + after
    ensures (forall c | c in before :: c == '\n') && (forall c | c in after :: c == '\n')
    ensures TrimNewlines(s) != "" ==> TrimNewlines(s)[0] != '\n' && TrimNewlines(s)[|TrimNewlines(s)| - 1] != '\n'
    decreases |s|
  {
    before, after := "", "";
    if s != "" && s[0] == '\n' {
      before, after := OnlyNewlinesGo(s[1..]);
      before := "\n" + before;
      assert s == "\n" + s[1..];
      Regroup("\n", before[1..], TrimNewlines(s), after);
      assert before[1..] + TrimNewlines(s) + after == s[1..];
    } else if s != "" && s[|s| - 1] == '\n' {
      before, after := OnlyNewlinesGo(s[..|s| - 1]);
      after := after + "\n";
      assert s == s[..|s| - 1] + "\n";
    }
  }

  lemma Regroup(a: string, b: string, c: string, d: string)
    ensures a + (b + c + d) == (a + b) + c + d
  {
  }

  /** The fences of a code block stand on lines of their own, around its lines as they are. */
  lemma FencesStandAlone(lines: seq<string>)
    requires Separable(lines)
    ensures Lines(Fenced(Join(lines, "\n"))) == ["```"] + (if lines == [] then [""] else lines) + ["```"]
  {
    hide Lines, Join, Separable;
    var body := if lines == [] then [""] else lines;
    var all := ["```"] + body + ["```"];
    FencedSeparates(lines);
    JoinOfNone();
    JoinOfExtended(["```"] + body, "```");
    JoinOfFirst("```", body);
    assert Fenced(Join(lines, "\n")) == "```" + ("\n" + Join(body, "\n")) + "\n" + "```";
    LinesOfJoin(all);
  }

  lemma FencedSeparates(lines: seq<string>)
    requires Separable(lines)
    ensures Separable(["```"] + (if lines == [] then [""] else lines) + ["```"])
  {
  }

  lemma JoinOfNone()
    ensures Join([""], "\n") == "" && Join([], "\n") == ""
  {
  }

  /** Behind the first line of an item, every line with text follows indented by two spaces. */
  lemma ContinuedIndents(lines: seq<string>, line: string)
    ensures Continued(lines + [line]) == Continued(lines) + (if Blank(line) then [] else ["  " + line])
    ensures Continued([]) == []
  {
    hide Trim, Blank, Words;
    assert (lines + [line])[..|lines|] == lines;
    WordsOfTrim(line);
  }

  /** A list item begins with its prefix, and takes no lines when it has no text. */
  lemma ItemBegins(prefix: string, content: string)
    ensures Blank(content) <==> ItemLines(prefix, content) == []
    ensures !Blank(content) ==>
              var lines := Lines(Trim(content));
              lines != [] && ItemLines(prefix, content) == [prefix + lines[0]] + Continued(lines[1..])
  {
    hide Trim, Lines, Continued, Blank, Words;
    WordsOfTrim(content);
    WordsOfLines(Trim(content));
    AllWordsOfNone();
    BlankHasNoWords(content);
    LinesOfNone();
  }
}
