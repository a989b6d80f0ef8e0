/**
 Rendering a parsed HTML tree as Markdown. The text of the tree is pushed piece by piece onto one
 buffer; every push may add or remove whitespace around the piece.
 */
module Markdown {
  import opened Wrappers
  import opened Text
  import opened BlankLines
  import opened WordText

  /** A node of the parsed document; Other is a comment, a doctype or a fragment root. */
  datatype Node =
    | Text(text: string)
    | Element(name: string, attributes: map<string, string>, children: seq<Node>)
    | Other(children: seq<Node>)

  /** What the renderer takes from elsewhere: links resolved against the base URL, and the block a
      table becomes. */
  datatype Host = Host(resolve: string -> Option<string>, table: Node -> string)

  // ---------- Names ----------

  predicate IsDropped(name: string) {
    name in ["script", "style", "noscript", "template", "svg"]
  }

  predicate IsHeading(name: string) {
    name in ["h1", "h2", "h3", "h4", "h5", "h6"]
  }

  predicate IsBlock(name: string) {
    name in ["p", "div", "section", "article", "main", "header", "footer", "aside"]
  }

  predicate IsStrong(name: string) {
    name in ["strong", "b"]
  }

  predicate IsEmphasis(name: string) {
    name in ["em", "i"]
  }

  predicate IsList(name: string) {
    name in ["ul", "ol"]
  }

  predicate IsItem(node: Node) {
    node.Element? && node.name == "li"
  }

  function Hashes(name: string): string
    requires IsHeading(name)
  {
    seq((name[1] as int) - ('0' as int), _ => '#')
  }

  // ---------- One push ----------

  predicate EndsInSpace(s: string) {
    s != "" && IsWhitespace(s[|s| - 1])
  }

  function InlineText(out: string, text: string): string {
    var normalized := CollectText(text);
    if normalized == "" then out else
    var gap := if IsWhitespace(text[0]) && out != "" && !EndsInSpace(out) then " " else "";
    var joined := out + gap + normalized;
    if EndsInSpace(text) && !EndsInSpace(joined) then joined + " " else joined
  }

  function Block(out: string, content: string): string {
    var c := Trim(content);
    if c == "" then out
    else (if TrimEnd(out) == "" then out else TrimEnd(out) + "\n\n") + c + "\n\n"
  }

  function Marks(out: string, mark: string, content: string): string {
    if Trim(content) == "" then out else out + mark + Trim(content) + mark
  }

  function CodeSpan(out: string, content: string): string {
    if content == "" then out else out + "`" + Trim(content) + "`"
  }

  function TrimNewlines(s: string): string
    decreases |s|
  {
    if s != "" && s[0] == '\n' then TrimNewlines(s[1..])
    else if s != "" && s[|s| - 1] == '\n' then TrimNewlines(s[..|s| - 1])
    else s
  }

  const FENCE: string := "```"

  function Fenced(body: string): string {
    FENCE + "\n" + body + "\n" + FENCE
  }

  function CodeBlock(out: string, content: string): string {
    if Trim(content) == "" then out else Block(out, Fenced(TrimNewlines(content)))
  }

  function Href(host: Host, attributes: map<string, string>): Option<string> {
    if "href" in attributes then host.resolve(attributes["href"]) else None
  }

  function Link(out: string, href: Option<string>, caption: string): string {
    if href.None? then out + caption
    else if caption == "" then out + href.value
    else out + "[" + caption + "](" + href.value + ")"
  }

  function Attribute(attributes: map<string, string>, name: string): string {
    if name in attributes then attributes[name] else ""
  }

  function Image(host: Host, attributes: map<string, string>): string {
    var alt := Trim(Attribute(attributes, "alt"));
    match host.resolve(Attribute(attributes, "src"))
    case None => ""
    case Some(src) => "![" + alt + "](" + src + ")"
  }

  function QuoteLines(lines: seq<string>): (r: seq<string>)
    ensures |r| == |lines|
  {
    seq(|lines|, i requires 0 <= i < |lines| => "> " + lines[i])
  }

  function Digit(n: nat): char
    requires n < 10
  {
    ((('0' as int) + n) as char)
  }

  function Decimal(n: nat): string {
    if n < 10 then [Digit(n)] else Decimal(n / 10) + [Digit(n % 10)]
  }

  /** The number a text of digits stands for. */
  function Value(digits: string): int {
    if digits == "" then 0
    else 10 * Value(digits[..|digits| - 1]) + (digits[|digits| - 1] as int - 48)
  }

  /** The digits of a number stand for it, the first not being zero. */
  lemma {:induction false} DecimalStandsFor(n: nat)
    ensures Value(Decimal(n)) == n && forall c | c in Decimal(n) :: 48 <= c as int <= 57
    ensures Decimal(n) != "" && (n > 0 ==> Decimal(n)[0] as int != 48)
  {
    if n < 10 {
      assert Value([Digit(n)][..0]) == 0;
    } else {
      DecimalStandsFor(n / 10);
      assert Decimal(n)[..|Decimal(n)| - 1] == Decimal(n / 10);
    }
  }

  function ItemPrefix(ordered: bool, number: nat): string {
    if ordered then Decimal(number) + ". " else "- "
  }

  /** The lines of an item after its first one. */
  function Continued(lines: seq<string>): seq<string> {
    if lines == [] then [] else
    var (init, line) := (lines[..|lines| - 1], lines[|lines| - 1]);
    Continued(init) + if Trim(line) == "" then [] else ["  " + line]
  }

  function ItemLines(prefix: string, content: string): seq<string> {
    var lines := Lines(Trim(content));
    if lines == [] then [] else [prefix + lines[0]] + Continued(lines[1..])
  }

  function ItemCount(nodes: seq<Node>): nat {
    if nodes == [] then 0
    else ItemCount(nodes[..|nodes| - 1]) + if IsItem(nodes[|nodes| - 1]) then 1 else 0
  }

  // ---------- The whole tree ----------

  /** All text below, as a pre element takes it. */
  function TextOf(node: Node): string
    decreases node
  {
    match node
    case Text(text) => text
    case Element(_, _, children) => AllText(children)
    case Other(children) => AllText(children)
  }

  function AllText(nodes: seq<Node>): string
    decreases nodes
  {
    if nodes == [] then "" else AllText(nodes[..|nodes| - 1]) + TextOf(nodes[|nodes| - 1])
  }

  function RenderNode(host: Host, node: Node, inPre: bool, preserve: bool, out: string): string
    decreases node, 1
  {
    match node
    case Text(text) => if preserve then out + text else InlineText(out, text)
    case Other(children) => RenderAll(host, children, false, preserve, out)
    case Element(_, _, _) => RenderElement(host, node, inPre, preserve, out)
  }

  function RenderElement(host: Host, node: Node, inPre: bool, preserve: bool, out: string): string
    requires node.Element?
    decreases node, 0
  {
    var (name, children) := (node.name, node.children);
    if IsDropped(name) then out
    else if IsHeading(name) then Block(out, Hashes(name) + " " + Trim(Content(host, children, false)))
    else if IsBlock(name) then Block(out, Trim(Content(host, children, false)))
    else if name == "br" then out + "\n"
    else if name == "hr" then Block(out, "---")
    else if IsStrong(name) then Marks(out, "**", Content(host, children, false))
    else if IsEmphasis(name) then Marks(out, "*", Content(host, children, false))
    else if name == "code" && inPre then RenderAll(host, children, false, true, out)
    else if name == "code" then CodeSpan(out, Content(host, children, true))
    else if name == "pre" then CodeBlock(out, AllText(children))
    else if name == "a" then Link(out, Href(host, node.attributes), Trim(Content(host, children, false)))
    else if name == "img" then out + Image(host, node.attributes)
    else if IsList(name) then Block(out, Join(ListLines(host, children, name == "ol"), "\n"))
    else if name == "li" then Block(out, "- " + Trim(Content(host, children, false)))
    else if name == "blockquote" then Block(out, Join(QuoteLines(Lines(Trim(Content(host, children, false)))), "\n"))
    else if name == "table" then Block(out, host.table(node))
    else RenderAll(host, children, false, preserve, out)
  }

  /** The nodes one after the other onto the same buffer. */
  function RenderAll(host: Host, nodes: seq<Node>, inPre: bool, preserve: bool, out: string): string
    decreases nodes, 0
  {
    if nodes == [] then out else
    RenderNode(host, nodes[|nodes| - 1], inPre, preserve, RenderAll(host, nodes[..|nodes| - 1], inPre, preserve, out))
  }

  /** The children onto a buffer of their own. */
  function Content(host: Host, nodes: seq<Node>, preserve: bool): string
    decreases nodes, 1
  {
    RenderAll(host, nodes, false, preserve, "")
  }

  function ListLines(host: Host, nodes: seq<Node>, ordered: bool): seq<string>
    decreases nodes, 1
  {
    if nodes == [] then [] else
    var (init, node) := (nodes[..|nodes| - 1], nodes[|nodes| - 1]);
    ListLines(host, init, ordered)
    + if IsItem(node) then ItemLines(ItemPrefix(ordered, ItemCount(init) + 1), Content(host, node.children, false))
      else []
  }

  function Render(host: Host, root: Node): string
    requires root.Element?
  {
    Collapse(RenderAll(host, root.children, root.name == "pre", false, ""))
  }

  // ---------- The renderer ----------

  /** The string the renderer pushes onto. */
  class Buffer {
    var text: string

    constructor ()
      ensures text == ""
    {
      text := "";
    }

    /** push_inline_text */
    method PushInlineText(added: string)
      modifies this
      ensures text == InlineText(old(text), added)
    {
      hide IsWhitespace, Words;
      var normalized := CollectText(added);
      if normalized == "" {
        return;
      }
      NoTextNoWords(added);
      if IsWhitespace(added[0]) && text != "" && !EndsInSpace(text) {
        text := text + " ";
      }
      text := text + normalized;
      if EndsInSpace(added) && !EndsInSpace(text) {
        text := text + " ";
      }
    }

    /** push_block */
    method PushBlock(content: string)
      modifies this
      ensures text == Block(old(text), content)
    {
      var c := Trim(content);
      if c == "" {
        return;
      }
      if TrimEnd(text) != "" {
        while EndsInSpace(text)
          invariant TrimEnd(text) == TrimEnd(old(text))
          decreases |text|
        {
          text := text[..|text| - 1];
        }
        text := text + "\n\n";
      }
      text := text + c;
      text := text + "\n\n";
    }
  }

  lemma NoTextNoWords(s: string)
    ensures CollectText(s) != "" ==> s != ""
  {
  }

  /** render_markdown_node */
  method RenderNodeOnto(host: Host, node: Node, inPre: bool, preserve: bool, out: Buffer)
    modifies out
    ensures out.text == RenderNode(host, node, inPre, preserve, old(out.text))
    decreases node, 1
  {
    match node
    case Text(text) =>
      if preserve {
        out.text := out.text + text;
      } else {
        out.PushInlineText(text);
      }
    case Other(children) =>
      RenderAllOnto(host, children, false, preserve, out);
    case Element(_, _, _) =>
      RenderElementOnto(host, node, inPre, preserve, out);
  }

  method RenderElementOnto(host: Host, node: Node, inPre: bool, preserve: bool, out: Buffer)
    requires node.Element?
    modifies out
    ensures out.text == RenderElement(host, node, inPre, preserve, old(out.text))
    decreases node, 0
  {
    hide Block, Marks, Content, ListLines, AllText, Link, Image, Join, Lines, QuoteLines, Hashes;
    var name, children := node.name, node.children;
    if IsDropped(name) {
    } else if IsHeading(name) {
      var content := RenderChildren(host, children, false);
      out.PushBlock(Hashes(name) + " " + Trim(content));
    } else if IsBlock(name) {
      var content := RenderChildren(host, children, false);
      out.PushBlock(Trim(content));
    } else if name == "br" {
      out.text := out.text + "\n";
    } else if name == "hr" {
      out.PushBlock("---");
    } else if IsStrong(name) {
      var content := RenderChildren(host, children, false);
      out.text := Marks(out.text, "**", content);
    } else if IsEmphasis(name) {
      var content := RenderChildren(host, children, false);
      out.text := Marks(out.text, "*", content);
    } else if name == "code" && inPre {
      RenderAllOnto(host, children, false, true, out);
    } else if name == "code" {
      var content := RenderChildren(host, children, true);
      out.text := CodeSpan(out.text, content);
    } else if name == "pre" {
      var content := AllText(children);
      if Trim(content) != "" {
        out.PushBlock(Fenced(TrimNewlines(content)));
      }
    } else if name == "a" {
      var content := RenderChildren(host, children, false);
      out.text := Link(out.text, Href(host, node.attributes), Trim(content));
    } else if name == "img" {
      out.text := out.text + Image(host, node.attributes);
    } else if IsList(name) {
      var lines := RenderList(host, children, name == "ol");
      out.PushBlock(Join(lines, "\n"));
    } else if name == "li" {
      var content := RenderChildren(host, children, false);
      out.PushBlock("- " + Trim(content));
    } else if name == "blockquote" {
      var content := RenderChildren(host, children, false);
      out.PushBlock(Join(QuoteLines(Lines(Trim(content))), "\n"));
    } else if name == "table" {
      out.PushBlock(host.table(node));
    } else {
      RenderAllOnto(host, children, false, preserve, out);
    }
  }

  method RenderAllOnto(host: Host, nodes: seq<Node>, inPre: bool, preserve: bool, out: Buffer)
    modifies out
    ensures out.text == RenderAll(host, nodes, inPre, preserve, old(out.text))
    decreases nodes, 0
  {
    hide RenderNode;
    for k := 0 to |nodes|
      invariant out.text == RenderAll(host, nodes[..k], inPre, preserve, old(out.text))
    {
      RenderNodeOnto(host, nodes[k], inPre, preserve, out);
      assert nodes[..k + 1][..k] == nodes[..k];
    }
    assert nodes[..|nodes|] == nodes;
  }

  /** render_children */
  method RenderChildren(host: Host, nodes: seq<Node>, preserve: bool) returns (content: string)
    ensures content == Content(host, nodes, preserve)
    decreases nodes, 1
  {
    var out := new Buffer();
    RenderAllOnto(host, nodes, false, preserve, out);
    return out.text;
  }

  /** One item of render_list: its first line behind the prefix, the others indented. */
  method AppendItem(before: seq<string>, prefix: string, content: string) returns (lines: seq<string>)
    ensures lines == before + ItemLines(prefix, content)
  {
    hide Lines, Trim;
    var contentLines := Lines(Trim(content));
    if contentLines == [] {
      return before;
    }
    var others := contentLines[1..];
    lines := before + [prefix + contentLines[0]];
    for j := 0 to |others|
      invariant lines == before + ([prefix + contentLines[0]] + Continued(others[..j]))
    {
      assert others[..j + 1][..j] == others[..j];
      if Trim(others[j]) != "" {
        lines := lines + ["  " + others[j]];
      }
    }
    assert others[..|others|] == others;
  }

  lemma NoLines(host: Host, ordered: bool)
    ensures ListLines(host, [], ordered) == [] && ItemCount([]) == 0
  {
  }

  lemma OneNodeMore(host: Host, nodes: seq<Node>, k: nat, ordered: bool)
    requires k < |nodes|
    ensures ItemCount(nodes[..k + 1]) == ItemCount(nodes[..k]) + if IsItem(nodes[k]) then 1 else 0
    ensures ListLines(host, nodes[..k + 1], ordered) ==
              if IsItem(nodes[k]) then
                ListLines(host, nodes[..k], ordered)
                + ItemLines(ItemPrefix(ordered, ItemCount(nodes[..k]) + 1), Content(host, nodes[k].children, false))
              else ListLines(host, nodes[..k], ordered)
  {
    hide Content, ItemPrefix, ItemLines;
    assert nodes[..k + 1][..k] == nodes[..k];
  }

  /** The lines render_list collects before it pushes them as one block. */
  method RenderList(host: Host, nodes: seq<Node>, ordered: bool) returns (lines: seq<string>)
    ensures lines == ListLines(host, nodes, ordered)
    decreases nodes, 1
  {
    hide Content, ItemPrefix, ItemLines, ListLines, ItemCount;
    lines := [];
    var number := 0;
    NoLines(host, ordered);
    for k := 0 to |nodes|
      invariant lines == ListLines(host, nodes[..k], ordered)
      invariant number == ItemCount(nodes[..k])
    {
      OneNodeMore(host, nodes, k, ordered);
      if IsItem(nodes[k]) {
        var content := RenderChildren(host, nodes[k].children, false);
        number := number + 1;
        lines := AppendItem(lines, ItemPrefix(ordered, number), content);
      }
    }
    assert nodes[..|nodes|] == nodes;
  }

  /** render_markdown */
  method RenderMarkdown(host: Host, root: Node) returns (markdown: string)
    requires root.Element?
    ensures markdown == Render(host, root)
  {
    var out := new Buffer();
    RenderAllOnto(host, root.children, root.name == "pre", false, out);
    markdown := CollapseBlankLines(out.text);
  }

  // ---------- The characters a tree puts into the result ----------

  /** What a node adds, whitespace aside. Nothing here depends on the buffer. */
  function Marked(host: Host, node: Node, inPre: bool): string
    decreases node, 1
  {
    match node
    case Text(text) => Solid(text)
    case Other(children) => MarkedAll(host, children, false)
    case Element(_, _, _) => MarkedElement(host, node, inPre)
  }

  function MarkedElement(host: Host, node: Node, inPre: bool): string
    requires node.Element?
    decreases node, 0
  {
    var (name, children) := (node.name, node.children);
    if IsDropped(name) || name == "br" then ""
    else if IsHeading(name) then Hashes(name) + MarkedAll(host, children, false)
    else if name == "hr" then "---"
    else if IsStrong(name) then Wrapped("**", MarkedAll(host, children, false))
    else if IsEmphasis(name) then Wrapped("*", MarkedAll(host, children, false))
    else if name == "code" && !inPre then
      if Content(host, children, true) == "" then "" else "`" + MarkedAll(host, children, false) + "`"
    else if name == "pre" then Wrapped(FENCE, Solid(AllText(children)))
    else if name == "a" then
      LinkMarks(Href(host, node.attributes), MarkedAll(host, children, false))
    else if name == "img" then Solid(Image(host, node.attributes))
    else if IsList(name) then MarkedItems(host, children, name == "ol")
    else if name == "li" then "-" + MarkedAll(host, children, false)
    else if name == "blockquote" then Quoted(Lines(Trim(Content(host, children, false))))
    else if name == "table" then Solid(host.table(node))
    else MarkedAll(host, children, false)
  }

  function MarkedAll(host: Host, nodes: seq<Node>, inPre: bool): string
    decreases nodes, 0
  {
    if nodes == [] then "" else
    MarkedAll(host, nodes[..|nodes| - 1], inPre) + Marked(host, nodes[|nodes| - 1], inPre)
  }

  function MarkedItems(host: Host, nodes: seq<Node>, ordered: bool): string
    decreases nodes, 1
  {
    if nodes == [] then "" else
    var (init, node) := (nodes[..|nodes| - 1], nodes[|nodes| - 1]);
    MarkedItems(host, init, ordered)
    + if IsItem(node) && MarkedAll(host, node.children, false) != "" then
        Solid(ItemPrefix(ordered, ItemCount(init) + 1)) + MarkedAll(host, node.children, false)
      else ""
  }

  function Wrapped(mark: string, content: string): string {
    if content == "" then "" else mark + content + mark
  }

  function LinkMarks(href: Option<string>, content: string): string {
    if href.None? then content
    else if content == "" then Solid(href.value)
    else "[" + content + "](" + Solid(href.value) + ")"
  }

  /** One mark in front of each line. */
  function Quoted(lines: seq<string>): string {
    if lines == [] then "" else ">" + Solid(lines[0]) + Quoted(lines[1..])
  }

  // ---------- One push keeps what is there and adds its text ----------

  lemma {:induction false} SolidOfWords(s: string)
    ensures SolidAll(Words(s)) == Solid(s)
    decreases |s|
  {
    if s == "" {
    } else {
      if IsWhitespace(s[0]) {
        SolidOfWords(s[1..]);
      } else {
        var n := WordLength(s);
        SolidOfWords(s[n..]);
        SolidOfConcat(s[..n], s[n..]);
        assert s == s[..n] + s[n..];
      }
    }
  }

  lemma SolidOfCollectText(s: string)
    ensures Solid(CollectText(s)) == Solid(s)
  {
    SolidOfWords(s);
    SolidOfJoin(Words(s), " ");
  }

  lemma SolidOfThree(a: string, b: string, c: string)
    ensures Solid(a + b + c) == Solid(a) + Solid(b) + Solid(c)
  {
    SolidOfConcat(a + b, c);
    SolidOfConcat(a, b);
  }

  lemma SolidOfInlineText(out: string, text: string)
    ensures Solid(InlineText(out, text)) == Solid(out) + Solid(text)
  {
    hide Solid, CollectText, EndsInSpace, IsWhitespace;
    SolidOfCollectText(text);
    SolidOfEmpty();
    SolidOfSpace();
    var normalized := CollectText(text);
    if normalized != "" {
      NoTextNoWords(text);
      SolidOfThree(out, " ", normalized);
      SolidOfThree(out, "", normalized);
      var joined := out + (if IsWhitespace(text[0]) && out != "" && !EndsInSpace(out) then " " else "") + normalized;
      SolidOfConcat(joined, " ");
    }
  }

  lemma SolidOfSpace()
    ensures Solid(" ") == "" && Solid("\n\n") == "" && Solid("\n") == ""
  {
    SolidOfBlank(" ");
    SolidOfBlank("\n\n");
    SolidOfBlank("\n");
  }

  lemma SolidOfBlock(out: string, content: string)
    ensures Solid(Block(out, content)) == Solid(out) + Solid(content)
  {
    hide Solid, TrimEnd, Trim;
    SolidOfTrim(content);
    SolidOfTrimEnd(out);
    SolidOfSpace();
    SolidOfEmpty();
    SolidOfThree(out, Trim(content), "\n\n");
    SolidOfThree(TrimEnd(out) + "\n\n", Trim(content), "\n\n");
    SolidOfConcat(TrimEnd(out), "\n\n");
  }

  /** A mark without whitespace stays whole. */
  lemma {:induction false} SolidOfMark(mark: string)
    requires forall c | c in mark :: !IsWhitespace(c)
    ensures Solid(mark) == mark
  {
    if mark == "" {
    } else {
      assert mark[0] in mark;
      SolidOfMark(mark[1..]);
    }
  }

  lemma SolidOfMarks(out: string, mark: string, content: string)
    requires forall c | c in mark :: !IsWhitespace(c)
    ensures Solid(Marks(out, mark, content)) == Solid(out) + Wrapped(mark, Solid(content))
  {
    hide Solid, Trim, IsWhitespace;
    SolidOfTrim(content);
    SolidOfMark(mark);
    SolidOfThree(out + mark, Trim(content), mark);
    SolidOfConcat(out, mark);
  }

  lemma SolidOfCodeSpan(out: string, content: string)
    ensures Solid(CodeSpan(out, content)) == Solid(out) + if content == "" then "" else "`" + Solid(content) + "`"
  {
    SolidOfMark("`");
    hide Solid, Trim, IsWhitespace;
    SolidOfTrim(content);
    SolidOfThree(out + "`", Trim(content), "`");
    SolidOfConcat(out, "`");
  }

  lemma {:induction false} SolidOfTrimNewlines(s: string)
    ensures Solid(TrimNewlines(s)) == Solid(s)
    decreases |s|
  {
    SolidOfSpace();
    hide Solid;
    if s != "" && s[0] == '\n' {
      SolidOfTrimNewlines(s[1..]);
      assert s == "\n" + s[1..];
      SolidOfConcat("\n", s[1..]);
    } else if s != "" && s[|s| - 1] == '\n' {
      SolidOfTrimNewlines(s[..|s| - 1]);
      assert s == s[..|s| - 1] + "\n";
      SolidOfConcat(s[..|s| - 1], "\n");
    }
  }

  lemma SolidOfCodeBlock(out: string, content: string)
    ensures Solid(CodeBlock(out, content)) == Solid(out) + Wrapped(FENCE, Solid(content))
  {
    hide Solid, Trim, IsWhitespace, TrimNewlines, Block, Fenced;
    SolidOfTrim(content);
    SolidOfTrimNewlines(content);
    SolidOfBlock(out, Fenced(TrimNewlines(content)));
    SolidOfFenced(TrimNewlines(content));
  }

  lemma SolidOfFenced(body: string)
    ensures Solid(Fenced(body)) == FENCE + Solid(body) + FENCE
  {
    SolidOfMark(FENCE);
    SolidBetween(FENCE, body);
  }

  lemma SolidBetween(mark: string, body: string)
    ensures Solid(mark + "\n" + body + "\n" + mark) == Solid(mark) + Solid(body) + Solid(mark)
  {
    hide Solid, IsWhitespace;
    SolidOfSpace();
    SolidOfThree(mark, "\n", body);
    SolidOfThree(mark + "\n" + body, "\n", mark);
  }

  lemma SolidOfSpan(out: string, open: string, caption: string, middle: string, href: string, close: string)
    ensures Solid(out + open + caption + middle + href + close)
         == Solid(out) + (Solid(open) + Solid(caption) + Solid(middle) + Solid(href) + Solid(close))
  {
    hide Solid;
    SolidOfThree(out, open, caption);
    SolidOfThree(out + open + caption, middle, href);
    SolidOfConcat(out + open + caption + middle + href, close);
  }

  lemma SolidOfLink(out: string, href: Option<string>, content: string)
    ensures Solid(Link(out, href, Trim(content))) == Solid(out) + LinkMarks(href, Solid(content))
  {
    SolidOfMark("[");
    SolidOfMark("](");
    SolidOfMark(")");
    hide Solid, IsWhitespace, Trim;
    var caption := Trim(content);
    SolidOfTrim(content);
    SolidOfConcat(out, caption);
    if href.Some? {
      SolidOfConcat(out, href.value);
      SolidOfSpan(out, "[", caption, "](", href.value, ")");
    }
  }

  lemma {:induction false} SolidOfQuoteLines(lines: seq<string>)
    ensures SolidAll(QuoteLines(lines)) == Quoted(lines)
  {
    hide Solid, IsWhitespace;
    if lines == [] {
    } else {
      SolidOfQuoteLines(lines[1..]);
      assert QuoteLines(lines) == ["> " + lines[0]] + QuoteLines(lines[1..]);
      SolidOfQuoted(lines[0]);
    }
  }

  lemma SolidOfQuoted(line: string)
    ensures Solid("> " + line) == ">" + Solid(line)
  {
    SolidOfMark(">");
    hide Solid, IsWhitespace;
    SpacedMark(">", line);
    assert "> " == ">" + " ";
  }

  lemma SpacedMark(mark: string, content: string)
    ensures Solid((mark + " ") + content) == Solid(mark) + Solid(content)
  {
    hide Solid;
    SolidOfThree(mark, " ", content);
    SolidOfSpace();
  }

  lemma {:induction false} SolidOfContinued(lines: seq<string>)
    ensures SolidAll(Continued(lines)) == SolidAll(lines)
    decreases |lines|
  {
    hide Solid, Trim, SolidAll;
    if lines == [] {
      assert Continued(lines) == lines;
    } else {
      var init, line := lines[..|lines| - 1], lines[|lines| - 1];
      SolidOfContinued(init);
      SolidAllOfConcat(init, [line]);
      SolidAllOfConcat(Continued(init), ["  " + line]);
      SolidAllOfOne(line);
      SolidAllOfOne("  " + line);
      SolidOfConcat("  ", line);
      SolidOfBlank("  ");
      SolidOfTrim(line);
      assert lines == init + [line] && Continued(init) + [] == Continued(init);
      assert SolidAll(init) + "" == SolidAll(init);
    }
  }

  lemma SolidOfItemLines(prefix: string, content: string)
    ensures SolidAll(ItemLines(prefix, content)) == if Solid(content) == "" then "" else Solid(prefix) + Solid(content)
  {
    hide Solid, Trim, Lines, Continued;
    var lines := Lines(Trim(content));
    SolidOfTrim(content);
    SolidOfLines(Trim(content));
    if lines != [] {
      assert Trim(content) != "" by { assert Lines("") == [] by { LinesOfNone(); } }
      SolidOfContinued(lines[1..]);
      SolidOfConcat(prefix, lines[0]);
    }
  }

  // ---------- The buffer plays no part ----------

  /** Whatever the buffer holds, rendering a node keeps it and adds the node's own characters. */
  lemma {:induction false} NodeAddsMarks(host: Host, node: Node, inPre: bool, preserve: bool, out: string)
    ensures Solid(RenderNode(host, node, inPre, preserve, out)) == Solid(out) + Marked(host, node, inPre)
    decreases node, 1
  {
    hide Solid, InlineText;
    match node
    case Text(text) =>
      SolidOfConcat(out, text);
      SolidOfInlineText(out, text);
    case Other(children) =>
      NodesAddMarks(host, children, false, preserve, out);
    case Element(_, _, _) =>
      ElementAddsMarks(host, node, inPre, preserve, out);
  }

  lemma {:induction false} NodesAddMarks(host: Host, nodes: seq<Node>, inPre: bool, preserve: bool, out: string)
    ensures Solid(RenderAll(host, nodes, inPre, preserve, out)) == Solid(out) + MarkedAll(host, nodes, inPre)
    decreases nodes, 0
  {
    hide Solid, RenderNode, Marked;
    if nodes == [] {
    } else {
      var init, node := nodes[..|nodes| - 1], nodes[|nodes| - 1];
      NodesAddMarks(host, init, inPre, preserve, out);
      NodeAddsMarks(host, node, inPre, preserve, RenderAll(host, init, inPre, preserve, out));
    }
  }

  lemma {:induction false} ContentMarks(host: Host, nodes: seq<Node>, preserve: bool)
    ensures Solid(Content(host, nodes, preserve)) == MarkedAll(host, nodes, false)
    decreases nodes, 1
  {
    hide MarkedAll, RenderAll;
    NodesAddMarks(host, nodes, false, preserve, "");
    SolidOfEmpty();
  }

  lemma {:induction false} ItemsMarks(host: Host, nodes: seq<Node>, ordered: bool)
    ensures SolidAll(ListLines(host, nodes, ordered)) == MarkedItems(host, nodes, ordered)
    decreases nodes, 2
  {
    hide Solid, ItemLines, ItemPrefix, Content, SolidAll, MarkedAll;
    if nodes == [] {
      assert SolidAll([]) == "" by { SolidAllOfNone(); }
    } else {
      var init, node := nodes[..|nodes| - 1], nodes[|nodes| - 1];
      ItemsMarks(host, init, ordered);
      if IsItem(node) {
        var prefix := ItemPrefix(ordered, ItemCount(init) + 1);
        ContentMarks(host, node.children, false);
        var content := Content(host, node.children, false);
        SolidOfItemLines(prefix, content);
        SolidAllOfConcat(ListLines(host, init, ordered), ItemLines(prefix, content));
      } else {
        assert ListLines(host, nodes, ordered) == ListLines(host, init, ordered);
      }
    }
  }

  lemma SolidAllOfNone()
    ensures SolidAll([]) == ""
  {
  }

  lemma {:induction false} ElementAddsMarks(host: Host, node: Node, inPre: bool, preserve: bool, out: string)
    requires node.Element?
    ensures Solid(RenderElement(host, node, inPre, preserve, out)) == Solid(out) + MarkedElement(host, node, inPre)
    decreases node, 0
  {
    hide Solid, Block, Marks, CodeSpan, CodeBlock, Link, Image, Content, RenderAll, MarkedAll;
    hide Trim, Join, Lines, IsWhitespace, Hashes, QuoteLines, Quoted, ListLines, MarkedItems, AllText, LinkMarks;
    var name, children := node.name, node.children;
    ContentMarks(host, children, false);
    ContentMarks(host, children, true);
    SolidOfTrim(Content(host, children, false));
    if IsDropped(name) {
    } else if IsHeading(name) {
      SolidOfHeading(out, name, Trim(Content(host, children, false)));
    } else if IsBlock(name) {
      SolidOfBlock(out, Trim(Content(host, children, false)));
    } else if name == "br" {
      SolidOfSpace();
      SolidOfConcat(out, "\n");
    } else if name == "hr" {
      SolidOfRule(out);
    } else if IsStrong(name) {
      SolidOfStrong(out, Content(host, children, false));
    } else if IsEmphasis(name) {
      SolidOfEmphasis(out, Content(host, children, false));
    } else if name == "code" && inPre {
      NodesAddMarks(host, children, false, true, out);
    } else if name == "code" {
      SolidOfCodeSpan(out, Content(host, children, true));
    } else if name == "pre" {
      SolidOfCodeBlock(out, AllText(children));
    } else if name == "a" {
      SolidOfLink(out, Href(host, node.attributes), Content(host, children, false));
    } else if name == "img" {
      SolidOfConcat(out, Image(host, node.attributes));
    } else if IsList(name) {
      ItemsMarks(host, children, name == "ol");
      SolidOfLinesBlock(out, ListLines(host, children, name == "ol"));
    } else if name == "li" {
      SolidOfItem(out, Trim(Content(host, children, false)));
    } else if name == "blockquote" {
      var lines := Lines(Trim(Content(host, children, false)));
      SolidOfQuoteLines(lines);
      SolidOfLinesBlock(out, QuoteLines(lines));
    } else if name == "table" {
      SolidOfBlock(out, host.table(node));
    } else {
      NodesAddMarks(host, children, false, preserve, out);
    }
  }

  lemma SolidOfLinesBlock(out: string, lines: seq<string>)
    ensures Solid(Block(out, Join(lines, "\n"))) == Solid(out) + SolidAll(lines)
  {
    SolidOfBlock(out, Join(lines, "\n"));
    SolidOfJoin(lines, "\n");
  }

  lemma SolidOfHeading(out: string, name: string, content: string)
    requires IsHeading(name)
    ensures Solid(Block(out, Hashes(name) + " " + content)) == Solid(out) + (Hashes(name) + Solid(content))
  {
    SolidOfMark(Hashes(name));
    SolidBehind(out, Hashes(name), content);
  }

  lemma SolidBehind(out: string, mark: string, content: string)
    ensures Solid(Block(out, mark + " " + content)) == Solid(out) + (Solid(mark) + Solid(content))
  {
    hide Solid, Block;
    SolidOfBlock(out, mark + " " + content);
    SolidOfSpace();
    SolidOfThree(mark, " ", content);
  }

  lemma SolidOfRule(out: string)
    ensures Solid(Block(out, "---")) == Solid(out) + "---"
  {
    SolidOfBlock(out, "---");
    SolidOfMark("---");
  }

  lemma SolidOfStrong(out: string, content: string)
    ensures Solid(Marks(out, "**", content)) == Solid(out) + Wrapped("**", Solid(content))
  {
    SolidOfMarks(out, "**", content);
  }

  lemma SolidOfEmphasis(out: string, content: string)
    ensures Solid(Marks(out, "*", content)) == Solid(out) + Wrapped("*", Solid(content))
  {
    SolidOfMarks(out, "*", content);
  }

  lemma SolidOfItem(out: string, content: string)
    ensures Solid(Block(out, "- " + content)) == Solid(out) + ("-" + Solid(content))
  {
    SolidOfMark("-");
    hide Solid, Block, IsWhitespace;
    SolidBehind(out, "-", content);
    assert "- " == "-" + " ";
  }

  // ---------- The text of a document ----------

  /** The text of a document in order. Scripts, styles and the like are not text, except that in a
      pre element everything is. */
  function Visible(node: Node): string
    decreases node
  {
    match node
    case Text(text) => text
    case Other(children) => VisibleAll(children)
    case Element(name, _, children) =>
      if IsDropped(name) then "" else if name == "pre" then AllText(children) else VisibleAll(children)
  }

  function VisibleAll(nodes: seq<Node>): string
    decreases nodes
  {
    if nodes == [] then "" else VisibleAll(nodes[..|nodes| - 1]) + Visible(nodes[|nodes| - 1])
  }

  /** Elements that take no children into the result. */
  predicate IsChildless(name: string) {
    name in ["br", "hr", "img", "table"]
  }

  /** The part of the text the renderer takes: of a list only what is in its li children, of tables
      (which it lays out anew) nothing. */
  function Kept(node: Node): string
    decreases node
  {
    match node
    case Text(text) => text
    case Other(children) => KeptAll(children)
    case Element(name, _, children) =>
      if IsDropped(name) || IsChildless(name) then ""
      else if name == "pre" then AllText(children)
      else if IsList(name) then KeptInList(children)
      else KeptAll(children)
  }

  function KeptAll(nodes: seq<Node>): string
    decreases nodes
  {
    if nodes == [] then "" else KeptAll(nodes[..|nodes| - 1]) + Kept(nodes[|nodes| - 1])
  }

  function KeptInList(nodes: seq<Node>): string
    decreases nodes
  {
    if nodes == [] then "" else
    var node := nodes[|nodes| - 1];
    KeptInList(nodes[..|nodes| - 1]) + if IsItem(node) then KeptAll(node.children) else ""
  }

  /** The part it leaves out. */
  function Lost(node: Node): string
    decreases node
  {
    match node
    case Text(_) => ""
    case Other(children) => LostAll(children)
    case Element(name, _, children) =>
      if IsDropped(name) || name == "pre" then ""
      else if IsChildless(name) then VisibleAll(children)
      else if IsList(name) then LostInList(children)
      else LostAll(children)
  }

  function LostAll(nodes: seq<Node>): string
    decreases nodes
  {
    if nodes == [] then "" else LostAll(nodes[..|nodes| - 1]) + Lost(nodes[|nodes| - 1])
  }

  function LostInList(nodes: seq<Node>): string
    decreases nodes
  {
    if nodes == [] then "" else
    var node := nodes[|nodes| - 1];
    LostInList(nodes[..|nodes| - 1]) + if IsItem(node) then LostAll(node.children) else Visible(node)
  }

  // ---------- Subsequences ----------

  /** The characters of a occur in b in this order. */
  predicate Subsequence(a: string, b: string) {
    a == "" || (b != "" && ((a[0] == b[0] && Subsequence(a[1..], b[1..])) || Subsequence(a, b[1..])))
  }

  lemma {:induction false} SubsequenceOfConcat(a: string, b: string, c: string, d: string)
    requires Subsequence(a, b) && Subsequence(c, d)
    ensures Subsequence(a + c, b + d)
    decreases |b|
  {
    if b == "" {
      assert a + c == c && b + d == d;
    } else {
      assert (b + d)[1..] == b[1..] + d;
      if a != "" && a[0] == b[0] && Subsequence(a[1..], b[1..]) {
        SubsequenceOfConcat(a[1..], b[1..], c, d);
        assert (a + c)[1..] == a[1..] + c;
      } else {
        assert Subsequence(a, b[1..]);
        SubsequenceOfConcat(a, b[1..], c, d);
      }
    }
  }

  lemma {:induction false} SubsequenceOfSelf(a: string)
    ensures Subsequence(a, a)
  {
    if a == "" {
    } else {
      SubsequenceOfSelf(a[1..]);
    }
  }

  lemma SubsequenceBetween(a: string, before: string, b: string, after: string)
    requires Subsequence(a, b)
    ensures Subsequence(a, before + b + after)
  {
    SubsequenceOfConcat("", before, a, b);
    assert "" + a == a && a + "" == a;
    SubsequenceOfConcat(a, before + b, "", after);
  }

  // ---------- The kept text is in the result ----------

  lemma {:induction false} KeptIsMarked(host: Host, node: Node, inPre: bool)
    ensures Subsequence(Solid(Kept(node)), Marked(host, node, inPre))
    decreases node, 1
  {
    hide Solid, Subsequence;
    match node
    case Text(text) => SubsequenceOfSelf(Solid(text));
    case Other(children) => KeptAreMarked(host, children, false);
    case Element(_, _, _) => KeptInElement(host, node, inPre);
  }

  lemma {:induction false} KeptAreMarked(host: Host, nodes: seq<Node>, inPre: bool)
    ensures Subsequence(Solid(KeptAll(nodes)), MarkedAll(host, nodes, inPre))
    decreases nodes, 0
  {
    hide Solid, Subsequence, Kept, Marked;
    if nodes == [] {
      NothingIsEverywhere("");
    } else {
      var init, node := nodes[..|nodes| - 1], nodes[|nodes| - 1];
      KeptAreMarked(host, init, inPre);
      KeptIsMarked(host, node, inPre);
      SolidOfConcat(KeptAll(init), Kept(node));
      SubsequenceOfConcat(Solid(KeptAll(init)), MarkedAll(host, init, inPre),
                          Solid(Kept(node)), Marked(host, node, inPre));
    }
  }

  lemma NothingIsEverywhere(b: string)
    ensures Subsequence(Solid(""), b)
  {
  }

  lemma {:induction false} KeptItemsAreMarked(host: Host, nodes: seq<Node>, ordered: bool)
    ensures Subsequence(Solid(KeptInList(nodes)), MarkedItems(host, nodes, ordered))
    decreases nodes, 1
  {
    hide Solid, Subsequence, KeptAll, MarkedAll, ItemPrefix;
    if nodes == [] {
      NothingIsEverywhere("");
    } else {
      var init, node := nodes[..|nodes| - 1], nodes[|nodes| - 1];
      KeptItemsAreMarked(host, init, ordered);
      if IsItem(node) {
        KeptAreMarked(host, node.children, false);
        OneMoreItem(KeptInList(init), MarkedItems(host, init, ordered), KeptAll(node.children),
                    MarkedAll(host, node.children, false), Solid(ItemPrefix(ordered, ItemCount(init) + 1)));
      } else {
        assert KeptInList(nodes) == KeptInList(init);
        assert MarkedItems(host, nodes, ordered) == MarkedItems(host, init, ordered);
      }
    }
  }

  lemma OneMoreItem(kept: string, marked: string, text: string, content: string, prefix: string)
    requires Subsequence(Solid(kept), marked) && Subsequence(Solid(text), content)
    ensures Subsequence(Solid(kept + text), marked + if content != "" then prefix + content else "")
  {
    hide Solid;
    SolidOfConcat(kept, text);
    if content != "" {
      SubsequenceBetween(Solid(text), prefix, content, "");
      assert prefix + content + "" == prefix + content;
      SubsequenceOfConcat(Solid(kept), marked, Solid(text), prefix + content);
    } else {
      SubsequenceOfConcat(Solid(kept), marked, Solid(text), "");
    }
  }

  lemma {:induction false} KeptInElement(host: Host, node: Node, inPre: bool)
    requires node.Element?
    ensures Subsequence(Solid(Kept(node)), MarkedElement(host, node, inPre))
    decreases node, 0
  {
    hide Solid, Subsequence, KeptAll, MarkedAll, KeptInList, MarkedItems;
    hide Quoted, Lines, Content, AllText, Hashes, Image, Trim;
    var name, children := node.name, node.children;
    KeptAreMarked(host, children, false);
    var kept, marked := Solid(KeptAll(children)), MarkedAll(host, children, false);
    if IsDropped(name) || IsChildless(name) {
      NothingIsEverywhere(MarkedElement(host, node, inPre));
    } else if IsHeading(name) {
      InFront(kept, Hashes(name), marked);
    } else if IsStrong(name) {
      WithinMarks(kept, "**", marked);
    } else if IsEmphasis(name) {
      WithinMarks(kept, "*", marked);
    } else if name == "code" && !inPre {
      WithinCode(host, children, kept);
    } else if name == "pre" {
      SubsequenceOfSelf(Solid(AllText(children)));
      WithinMarks(Solid(AllText(children)), FENCE, Solid(AllText(children)));
    } else if name == "a" {
      WithinLink(kept, Href(host, node.attributes), marked);
    } else if IsList(name) {
      KeptItemsAreMarked(host, children, name == "ol");
    } else if name == "li" {
      InFront(kept, "-", marked);
    } else if name == "blockquote" {
      WithinQuote(host, children, kept);
    }
  }

  lemma InFront(kept: string, mark: string, marked: string)
    requires Subsequence(kept, marked)
    ensures Subsequence(kept, mark + marked)
  {
    SubsequenceBetween(kept, mark, marked, "");
    assert mark + marked + "" == mark + marked;
  }

  lemma WithinMarks(kept: string, mark: string, marked: string)
    requires Subsequence(kept, marked)
    ensures Subsequence(kept, Wrapped(mark, marked))
  {
    SubsequenceBetween(kept, mark, marked, mark);
  }

  lemma WithinLink(kept: string, href: Option<string>, marked: string)
    requires Subsequence(kept, marked)
    ensures Subsequence(kept, LinkMarks(href, marked))
  {
    if href.Some? && marked != "" {
      SubsequenceBetween(kept, "[", marked, "](" + Solid(href.value) + ")");
      assert "[" + marked + ("](" + Solid(href.value) + ")") == "[" + marked + "](" + Solid(href.value) + ")";
    }
  }

  lemma WithinCode(host: Host, nodes: seq<Node>, kept: string)
    requires Subsequence(kept, MarkedAll(host, nodes, false))
    ensures Subsequence(kept, if Content(host, nodes, true) == "" then ""
                              else "`" + MarkedAll(host, nodes, false) + "`")
  {
    hide MarkedAll, Content;
    ContentMarks(host, nodes, true);
    SolidOfEmpty();
    SubsequenceBetween(kept, "`", MarkedAll(host, nodes, false), "`");
  }

  lemma {:induction false} LinesWithinQuote(lines: seq<string>)
    ensures Subsequence(SolidAll(lines), Quoted(lines))
  {
    hide Solid;
    if lines == [] {
    } else {
      LinesWithinQuote(lines[1..]);
      SubsequenceOfSelf(Solid(lines[0]));
      InFront(Solid(lines[0]), ">", Solid(lines[0]));
      SubsequenceOfConcat(Solid(lines[0]), ">" + Solid(lines[0]), SolidAll(lines[1..]), Quoted(lines[1..]));
    }
  }

  lemma {:induction false} SubsequenceTransitive(a: string, b: string, c: string)
    requires Subsequence(a, b) && Subsequence(b, c)
    ensures Subsequence(a, c)
    decreases |b| + |c|
  {
    if a != "" && b != "" {
      if b[0] == c[0] && Subsequence(b[1..], c[1..]) {
        if a[0] == b[0] && Subsequence(a[1..], b[1..]) {
          SubsequenceTransitive(a[1..], b[1..], c[1..]);
        } else {
          SubsequenceTransitive(a, b[1..], c[1..]);
        }
      } else {
        SubsequenceTransitive(a, b, c[1..]);
      }
    }
  }

  lemma WithinQuote(host: Host, nodes: seq<Node>, kept: string)
    requires Subsequence(kept, MarkedAll(host, nodes, false))
    ensures Subsequence(kept, Quoted(Lines(Trim(Content(host, nodes, false)))))
  {
    hide Subsequence, Quoted, Lines, Trim, Content, MarkedAll;
    var content := Content(host, nodes, false);
    ContentMarks(host, nodes, false);
    SolidOfTrim(content);
    SolidOfLines(Trim(content));
    LinesWithinQuote(Lines(Trim(content)));
    SubsequenceTransitive(kept, MarkedAll(host, nodes, false), Quoted(Lines(Trim(content))));
  }

  // ---------- When nothing is lost ----------

  /** The kept and the lost characters together are as many as the visible ones, and without lost
      ones the kept text is the visible text. */
  ghost predicate Shared(kept: string, lost: string, visible: string) {
    && |Solid(kept)| + |Solid(lost)| == |Solid(visible)|
    && (Solid(lost) == "" ==> Solid(kept) == Solid(visible))
  }

  lemma SharedOfConcat(k: string, l: string, v: string, k': string, l': string, v': string)
    requires Shared(k, l, v) && Shared(k', l', v')
    ensures Shared(k + k', l + l', v + v')
  {
    hide Solid;
    SolidOfConcat(k, k');
    SolidOfConcat(l, l');
    SolidOfConcat(v, v');
  }

  lemma SharedTrivially(text: string)
    ensures Shared(text, "", text) && Shared("", text, text)
  {
    SolidOfEmpty();
  }

  lemma {:induction false} NodeShares(node: Node)
    ensures Shared(Kept(node), Lost(node), Visible(node))
    decreases node
  {
    hide Shared;
    SharedTrivially("");
    match node
    case Text(text) => SharedTrivially(text);
    case Other(children) => NodesShare(children);
    case Element(name, _, children) =>
      NodesShare(children);
      ListShares(children);
      SharedTrivially(VisibleAll(children));
      SharedTrivially(AllText(children));
  }

  lemma {:induction false} NodesShare(nodes: seq<Node>)
    ensures Shared(KeptAll(nodes), LostAll(nodes), VisibleAll(nodes))
    decreases nodes
  {
    hide Shared, Kept, Lost, Visible;
    if nodes == [] {
      SharedTrivially("");
    } else {
      var init, node := nodes[..|nodes| - 1], nodes[|nodes| - 1];
      NodesShare(init);
      NodeShares(node);
      SharedOfConcat(KeptAll(init), LostAll(init), VisibleAll(init), Kept(node), Lost(node), Visible(node));
    }
  }

  lemma {:induction false} ListShares(nodes: seq<Node>)
    ensures Shared(KeptInList(nodes), LostInList(nodes), VisibleAll(nodes))
    decreases nodes
  {
    hide Shared, KeptAll, LostAll;
    if nodes == [] {
      SharedTrivially("");
    } else {
      var init, node := nodes[..|nodes| - 1], nodes[|nodes| - 1];
      ListShares(init);
      if IsItem(node) {
        NodesShare(node.children);
        SharedOfConcat(KeptInList(init), LostInList(init), VisibleAll(init),
                       KeptAll(node.children), LostAll(node.children), VisibleAll(node.children));
      } else {
        SharedTrivially(Visible(node));
        SharedOfConcat(KeptInList(init), LostInList(init), VisibleAll(init), "", Visible(node), Visible(node));
      }
    }
  }

  // ---------- Main results ----------

  /** The characters of a rendering are the marked characters of the tree, each once and in order:
      blocks, trimming, joining and collapsing only move whitespace. */
  lemma RenderingIsMarked(host: Host, root: Node)
    requires root.Element?
    ensures Solid(Render(host, root)) == MarkedAll(host, root.children, root.name == "pre")
  {
    hide Solid, MarkedAll, RenderAll, Collapse;
    var out := RenderAll(host, root.children, root.name == "pre", false, "");
    NodesAddMarks(host, root.children, root.name == "pre", false, "");
    CollapseKeepsText(out);
    SolidOfEmpty();
  }

  /** The text the renderer takes is in the Markdown, in order. */
  lemma RenderingKeepsText(host: Host, root: Node)
    requires root.Element?
    ensures Subsequence(Solid(KeptAll(root.children)), Solid(Render(host, root)))
  {
    hide Solid, MarkedAll, Render, KeptAll;
    RenderingIsMarked(host, root);
    KeptAreMarked(host, root.children, root.name == "pre");
  }

  /** It takes the whole text exactly when the tree has no text in tables, in elements that have
      no content, or in a list outside its items. */
  lemma NothingIsLostExactlyWhen(nodes: seq<Node>)
    ensures Solid(KeptAll(nodes)) == Solid(VisibleAll(nodes)) <==> Blank(LostAll(nodes))
  {
    NodesShare(nodes);
    SolidOfBlank(LostAll(nodes));
  }

  /** So the text of every such document is in its Markdown, in order. */
  lemma RenderingKeepsDocument(host: Host, root: Node)
    requires root.Element? && Blank(LostAll(root.children))
    ensures Subsequence(Solid(VisibleAll(root.children)), Solid(Render(host, root)))
  {
    NothingIsLostExactlyWhen(root.children);
    RenderingKeepsText(host, root);
  }

  /** Text beside the items of a list is lost: `<body><ul>x</ul></body>` renders to nothing. */
  lemma LooseListTextIsLost(host: Host)
    ensures var body := Element("body", map[], [Element("ul", map[], [Text("x")])]);
            && Render(host, body) == ""
            && !Subsequence(Solid(VisibleAll(body.children)), Solid(Render(host, body)))
  {
    var list := Element("ul", map[], [Text("x")]);
    var body := Element("body", map[], [list]);
    assert [list][..0] == [] && [Text("x")][..0] == [];
    assert MarkedItems(host, [Text("x")], false) == "";
    assert MarkedAll(host, [list], false) == "";
    NoMarksNoResult(host, body);
    assert VisibleAll([Text("x")]) == "x";
    assert VisibleAll([list]) == "x";
    SolidOfMark("x");
  }

  lemma NoMarksNoResult(host: Host, root: Node)
    requires root.Element? && MarkedAll(host, root.children, root.name == "pre") == ""
    ensures Render(host, root) == ""
  {
    hide Solid, MarkedAll, RenderAll, Trim, Join, Squeeze, Lines;
    RenderingIsMarked(host, root);
    var out := RenderAll(host, root.children, root.name == "pre", false, "");
    SolidOfTrim(Join(Squeeze(Lines(out)), "\n"));
  }
}
