/**
 The words a reader of a page sees against the words of its Markdown, for pages of blocks, inline
 containers, line breaks and text: when they agree, and what is lost when they do not.
 */
module ReadingWords {
  import opened Wrappers
  import opened Text
  import opened WordText
  import opened Markdown
  import opened MarkdownWords

  /** Elements the renderer walks through without a mark or a break. */
  predicate IsTransparent(name: string) {
    && !IsDropped(name) && !IsHeading(name) && !IsBlock(name) && !IsStrong(name) && !IsEmphasis(name) && !IsList(name)
    && name !in ["br", "hr", "code", "pre", "a", "img", "li", "blockquote", "table"]
  }

  predicate IsPlain(node: Node)
    decreases node
  {
    match node
    case Text(_) => true
    case Other(children) => ArePlain(children)
    case Element(name, _, children) =>
      IsDropped(name) || name == "br" || ((IsBlock(name) || IsTransparent(name)) && ArePlain(children))
  }

  predicate ArePlain(nodes: seq<Node>)
    decreases nodes
  {
    nodes == [] || (ArePlain(nodes[..|nodes| - 1]) && IsPlain(nodes[|nodes| - 1]))
  }

  /** What a reader sees: all text as it stands, blocks set apart. */
  function Seen(node: Node): string
    decreases node
  {
    match node
    case Text(text) => text
    case Other(children) => SeenAll(children)
    case Element(name, _, children) =>
      if IsDropped(name) then ""
      else if name == "br" then "\n"
      else if IsBlock(name) then Apart(SeenAll(children))
      else SeenAll(children)
  }

  function SeenAll(nodes: seq<Node>): string
    decreases nodes
  {
    if nodes == [] then "" else SeenAll(nodes[..|nodes| - 1]) + Seen(nodes[|nodes| - 1])
  }

  // ---------- What the renderer drops ----------

  /** A character it keeps, or whitespace it drops: that of a text without words or of a block without
      words. */
  datatype Cell = Letter(c: char) | Gone(space: string)

  function Letters(s: string): (r: seq<Cell>)
    ensures |r| == |s| && forall i | 0 <= i < |s| :: r[i] == Letter(s[i])
  {
    seq(|s|, i requires 0 <= i < |s| => Letter(s[i]))
  }

  function Cells(node: Node): seq<Cell>
    decreases node
  {
    match node
    case Text(text) => if text != "" && Blank(text) then [Gone(text)] else Letters(text)
    case Other(children) => CellsAll(children)
    case Element(name, _, children) =>
      if IsDropped(name) then []
      else if name == "br" then [Letter('\n')]
      else if IsBlock(name) then
        if Blank(SeenAll(children)) then [Gone(Apart(SeenAll(children)))]
        else [Letter(' ')] + CellsAll(children) + [Letter(' ')]
      else CellsAll(children)
  }

  function CellsAll(nodes: seq<Node>): seq<Cell>
    decreases nodes
  {
    if nodes == [] then [] else CellsAll(nodes[..|nodes| - 1]) + Cells(nodes[|nodes| - 1])
  }

  predicate IsLetter(cell: Cell) {
    cell.Letter? && !IsWhitespace(cell.c)
  }

  /** Two letters with nothing between them but whitespace that is dropped. */
  ghost predicate GluedAt(cells: seq<Cell>, i: int, k: int) {
    0 <= i < k - 1 < |cells| - 1 && IsLetter(cells[i]) && IsLetter(cells[k]) && forall m | i < m < k :: cells[m].Gone?
  }

  ghost predicate Glued(cells: seq<Cell>) {
    exists i, k :: GluedAt(cells, i, k)
  }

  /** The text with and without what is dropped. */
  function Told(cells: seq<Cell>): string {
    if cells == [] then "" else
    Told(cells[..|cells| - 1]) + match cells[|cells| - 1] case Letter(c) => [c] case Gone(_) => ""
  }

  function Shown(cells: seq<Cell>): string {
    if cells == [] then "" else
    Shown(cells[..|cells| - 1]) + match cells[|cells| - 1] case Letter(c) => [c] case Gone(space) => space
  }

  predicate SpacesAreBlank(cells: seq<Cell>) {
    forall cell | cell in cells && cell.Gone? :: cell.space != "" && Blank(cell.space)
  }

  // ---------- Words of cells ----------

  /** The last letter or kept whitespace is a letter. */
  ghost predicate EndsInLetter(cells: seq<Cell>) {
    exists i :: 0 <= i < |cells| && IsLetter(cells[i]) && forall m | i < m < |cells| :: cells[m].Gone?
  }

  lemma EndsInLetterOfMore(cells: seq<Cell>, cell: Cell)
    ensures EndsInLetter(cells + [cell]) <==> if cell.Gone? then EndsInLetter(cells) else IsLetter(cell)
  {
    var more := cells + [cell];
    assert more[|cells|] == cell;
    if cell.Gone? {
      if EndsInLetter(cells) {
        var i :| 0 <= i < |cells| && IsLetter(cells[i]) && forall m | i < m < |cells| :: cells[m].Gone?;
        assert IsLetter(more[i]) && forall m | i < m < |more| :: more[m].Gone?;
      }
      if EndsInLetter(more) {
        var i :| 0 <= i < |more| && IsLetter(more[i]) && forall m | i < m < |more| :: more[m].Gone?;
        assert IsLetter(cells[i]) && forall m | i < m < |cells| :: cells[m] == more[m];
      }
    } else if IsLetter(cell) {
      assert IsLetter(more[|cells|]);
    }
  }

  lemma GluedOfMore(cells: seq<Cell>, cell: Cell)
    ensures Glued(cells + [cell]) <==>
              || Glued(cells)
              || (IsLetter(cell) && EndsInLetter(cells) && cells[|cells| - 1].Gone?)
  {
    var more := cells + [cell];
    var n := |cells|;
    if Glued(cells) {
      var i, k :| GluedAt(cells, i, k);
      assert forall m | i < m < k :: more[m] == cells[m];
      assert GluedAt(more, i, k);
    } else if IsLetter(cell) && EndsInLetter(cells) && cells[n - 1].Gone? {
      var i :| 0 <= i < n && IsLetter(cells[i]) && forall m | i < m < n :: cells[m].Gone?;
      assert forall m | i < m < n :: more[m] == cells[m];
      assert GluedAt(more, i, n);
    }
    if Glued(more) {
      var i, k :| GluedAt(more, i, k);
      if k < n {
        assert forall m | i < m < k :: more[m] == cells[m];
        assert GluedAt(cells, i, k);
      } else {
        assert more[n - 1] == cells[n - 1];
        assert IsLetter(cells[i]) && forall m | i < m < n :: cells[m] == more[m];
      }
    }
  }

  /** What one more letter does to the words. */
  lemma OneMoreLetter(s: string, c: char)
    ensures IsWhitespace(c) ==> Words(s + [c]) == Words(s)
    ensures !IsWhitespace(c) ==> Words(s + [c]) == Meet(Words(s), [[c]], EndsInText(s))
    ensures EndsInText(s) ==> Words(s) != []
    ensures EndsInText(s + [c]) == !IsWhitespace(c)
  {
    hide IsWhitespace, Words, Meet;
    TextHasWords(s);
    WordsOfConcat(s, [c]);
    if IsWhitespace(c) {
      assert Blank([c]);
      SpaceBehind(s, [c]);
    } else {
      assert IsWord([c]);
      WordIsOne([c]);
    }
  }

  /** Where the two texts stand after the same cells. */
  ghost predicate Compares(cells: seq<Cell>) {
    var (told, shown) := (Told(cells), Shown(cells));
    && (EndsInText(told) <==> EndsInLetter(cells))
    && (EndsInText(shown) <==> cells != [] && IsLetter(cells[|cells| - 1]))
    && (!Glued(cells) ==> Words(told) == Words(shown))
    && |Words(told)| <= |Words(shown)|
    && (Glued(cells) ==> |Words(told)| < |Words(shown)|)
  }

  lemma {:induction false} CellsCompare(cells: seq<Cell>)
    requires SpacesAreBlank(cells)
    ensures Compares(cells)
  {
    hide Words, IsWhitespace, Compares, Blank, Glued, EndsInLetter;
    if cells == [] {
      NothingCompares();
    } else {
      var (init, cell) := (cells[..|cells| - 1], cells[|cells| - 1]);
      assert cells == init + [cell] && cell in cells;
      assert forall x | x in init :: x in cells;
      CellsCompare(init);
      match cell
      case Letter(c) => LetterCompares(init, c);
      case Gone(space) => GoneCompares(init, space);
    }
  }

  lemma NothingCompares()
    ensures Compares([])
  {
  }

  lemma ToldOfMore(cells: seq<Cell>, cell: Cell)
    ensures Told(cells + [cell]) == Told(cells) + match cell case Letter(c) => [c] case Gone(_) => ""
    ensures Shown(cells + [cell]) == Shown(cells) + match cell case Letter(c) => [c] case Gone(space) => space
  {
    assert (cells + [cell])[..|cells|] == cells;
  }

  lemma GoneCompares(cells: seq<Cell>, space: string)
    requires Compares(cells) && Blank(space) && space != ""
    ensures Compares(cells + [Gone(space)])
  {
    hide Words, IsWhitespace, Blank, Told, Shown, Glued, EndsInLetter;
    ToldOfMore(cells, Gone(space));
    EndsInLetterOfMore(cells, Gone(space));
    GluedOfMore(cells, Gone(space));
    SpaceBehind(Shown(cells), space);
    assert Told(cells) + "" == Told(cells);
  }

  lemma LetterCompares(cells: seq<Cell>, c: char)
    requires Compares(cells)
    ensures Compares(cells + [Letter(c)])
  {
    hide Words, IsWhitespace, Told, Shown, Glued, EndsInLetter;
    ToldOfMore(cells, Letter(c));
    EndsInLetterOfMore(cells, Letter(c));
    GluedOfMore(cells, Letter(c));
    OneMoreLetter(Told(cells), c);
    OneMoreLetter(Shown(cells), c);
    LastOfEndsInLetter(cells);
  }

  lemma LastOfEndsInLetter(cells: seq<Cell>)
    ensures cells != [] && IsLetter(cells[|cells| - 1]) ==> EndsInLetter(cells)
    ensures EndsInLetter(cells) ==> cells != [] && (IsLetter(cells[|cells| - 1]) || cells[|cells| - 1].Gone?)
  {
  }

  // ---------- The cells of a tree ----------

  lemma {:induction false} ToldOfBoth(a: seq<Cell>, b: seq<Cell>)
    ensures Told(a + b) == Told(a) + Told(b) && Shown(a + b) == Shown(a) + Shown(b)
    decreases |b|
  {
    hide Told, Shown;
    if b == [] {
      assert a + b == a;
      ToldOfNothing();
    } else {
      var (init, cell) := (b[..|b| - 1], b[|b| - 1]);
      ToldOfBoth(a, init);
      ToldOfMore(a + init, cell);
      ToldOfMore(init, cell);
      assert a + b == (a + init) + [cell] && b == init + [cell];
    }
  }

  lemma ToldOfNothing()
    ensures Told([]) == "" && Shown([]) == ""
  {
  }

  lemma {:induction false} ToldOfLetters(s: string)
    ensures Told(Letters(s)) == s && Shown(Letters(s)) == s && SpacesAreBlank(Letters(s))
  {
    if s == "" {
    } else {
      var n := |s| - 1;
      ToldOfLetters(s[..n]);
      assert Letters(s) == Letters(s[..n]) + [Letter(s[n])];
      ToldOfMore(Letters(s[..n]), Letter(s[n]));
    }
  }

  lemma {:induction false} SolidOfCells(cells: seq<Cell>)
    requires SpacesAreBlank(cells)
    ensures Solid(Told(cells)) == Solid(Shown(cells))
  {
    hide Solid, IsWhitespace, Blank;
    if cells == [] {
    } else {
      var (init, cell) := (cells[..|cells| - 1], cells[|cells| - 1]);
      assert cells == init + [cell] && cell in cells;
      assert forall x | x in init :: x in cells;
      SolidOfCells(init);
      match cell
      case Letter(c) =>
        SolidOfConcat(Told(init), [c]);
        SolidOfConcat(Shown(init), [c]);
      case Gone(space) =>
        SolidOfConcat(Shown(init), space);
        SolidOfBlank(space);
        assert Told(init) + "" == Told(init) && Solid(Shown(init)) + "" == Solid(Shown(init));
    }
  }

  lemma OneCell(cell: Cell)
    ensures Told([cell]) == (match cell case Letter(c) => [c] case Gone(_) => "")
    ensures Shown([cell]) == (match cell case Letter(c) => [c] case Gone(space) => space)
  {
    assert [cell][..0] == [];
  }

  /** The cells stand for the text the renderer takes and for that the reader sees. */
  ghost predicate StandFor(cells: seq<Cell>, told: string, shown: string) {
    Told(cells) == told && Shown(cells) == shown && SpacesAreBlank(cells)
  }

  lemma StandForBoth(a: seq<Cell>, b: seq<Cell>, told: string, shown: string, told': string, shown': string)
    requires StandFor(a, told, shown) && StandFor(b, told', shown')
    ensures StandFor(a + b, told + told', shown + shown')
  {
    hide Told, Shown, Blank;
    ToldOfBoth(a, b);
  }

  lemma {:induction false} NodeStandsFor(host: Host, node: Node, inPre: bool)
    requires IsPlain(node)
    ensures StandFor(Cells(node), Flow(host, node, inPre, false), Seen(node))
    decreases node, 1
  {
    hide StandFor, Blank, FlowAll;
    match node
    case Text(text) => TextStandsFor(text);
    case Other(children) => NodesStandFor(host, children, false);
    case Element(name, _, children) => ElementStandsFor(host, node, inPre);
  }

  lemma TextStandsFor(text: string)
    ensures StandFor(if text != "" && Blank(text) then [Gone(text)] else Letters(text),
                     if Blank(text) then "" else text, text)
  {
    hide Told, Shown;
    OneCell(Gone(text));
    ToldOfLetters(text);
  }

  lemma {:induction false} ElementStandsFor(host: Host, node: Node, inPre: bool)
    requires node.Element? && IsPlain(node)
    ensures StandFor(Cells(node), FlowElement(host, node, inPre, false), Seen(node))
    decreases node, 0
  {
    hide StandFor, Blank, FlowAll, CellsAll, SeenAll;
    var (name, children) := (node.name, node.children);
    if IsDropped(name) {
      TextStandsFor("");
      assert StandFor([], "", "") by { NothingStands(); }
    } else if name == "br" {
      LetterStands('\n');
    } else {
      NodesStandFor(host, children, false);
      if IsBlock(name) {
        BlockStands(CellsAll(children), FlowAll(host, children, false, false), SeenAll(children));
      }
    }
  }

  lemma NothingStands()
    ensures StandFor([], "", "")
  {
  }

  lemma LetterStands(c: char)
    ensures StandFor([Letter(c)], [c], [c])
  {
    OneCell(Letter(c));
  }

  lemma BlockStands(cells: seq<Cell>, told: string, shown: string)
    requires StandFor(cells, told, shown)
    ensures StandFor(if Blank(shown) then [Gone(Apart(shown))] else [Letter(' ')] + cells + [Letter(' ')],
                     Paragraph(told), Apart(shown))
  {
    hide Told, Shown;
    SolidOfCells(cells);
    SolidOfBlank(told);
    SolidOfBlank(shown);
    if Blank(shown) {
      OneCell(Gone(Apart(shown)));
      ApartOfBlank(shown);
    } else {
      LetterStands(' ');
      StandForBoth([Letter(' ')], cells, " ", " ", told, shown);
      StandForBoth([Letter(' ')] + cells, [Letter(' ')], " " + told, " " + shown, " ", " ");
    }
  }

  lemma ApartOfBlank(s: string)
    requires Blank(s)
    ensures Blank(Apart(s)) && Apart(s) != ""
  {
    AsciiWhitespace(' ');
  }

  lemma {:induction false} NodesStandFor(host: Host, nodes: seq<Node>, inPre: bool)
    requires ArePlain(nodes)
    ensures StandFor(CellsAll(nodes), FlowAll(host, nodes, inPre, false), SeenAll(nodes))
    decreases nodes, 0
  {
    hide StandFor, Cells, Flow, Seen;
    if nodes == [] {
      NothingStands();
    } else {
      var (init, node) := (nodes[..|nodes| - 1], nodes[|nodes| - 1]);
      NodesStandFor(host, init, inPre);
      NodeStandsFor(host, node, inPre);
      StandForBoth(CellsAll(init), Cells(node), FlowAll(host, init, inPre, false), SeenAll(init),
                   Flow(host, node, inPre, false), Seen(node));
    }
  }

  // ---------- Main results ----------

  /** The Markdown of a plain page has the words a reader sees exactly when nowhere two letters have nothing
      between them but whitespace the renderer drops: texts without words and blocks without words. */
  lemma WordsAreKeptExactlyWhen(host: Host, root: Node)
    requires root.Element? && ArePlain(root.children)
    ensures Words(Render(host, root)) == Words(SeenAll(root.children)) <==> !Glued(CellsAll(root.children))
  {
    hide Words, Render, FlowAll, CellsAll, SeenAll, Glued, EndsInLetter;
    RenderingFlows(host, root);
    NodesStandFor(host, root.children, root.name == "pre");
    CellsCompare(CellsAll(root.children));
  }

  lemma GluedDrops(cells: seq<Cell>)
    requires Glued(cells)
    ensures exists cell :: cell in cells && cell.Gone?
  {
    var i, k :| GluedAt(cells, i, k);
    assert cells[i + 1] in cells && cells[i + 1].Gone?;
  }

  /** Where nothing is dropped at all, the words are kept. */
  lemma NothingDroppedNothingGlued(host: Host, root: Node)
    requires root.Element? && ArePlain(root.children)
    requires forall cell | cell in CellsAll(root.children) :: cell.Letter?
    ensures Words(Render(host, root)) == Words(SeenAll(root.children))
  {
    hide Words, Render, SeenAll;
    WordsAreKeptExactlyWhen(host, root);
    var cells := CellsAll(root.children);
    if Glued(cells) {
      GluedDrops(cells);
    }
  }

  /** The space between two inline containers is a text without words, and dropped: a reader sees two words
      where `<body><span>a</span> <span>b</span></body>` renders to one. */
  lemma SpaceBetweenInlinesIsLost(host: Host)
    ensures var span := (s: string) => Element("span", map[], [Text(s)]);
            var body := Element("body", map[], [span("a"), Text(" "), span("b")]);
            && ArePlain(body.children)
            && Words(SeenAll(body.children)) == ["a", "b"]
            && Words(Render(host, body)) == ["ab"]
  {
    hide Words, Render, SeenAll, FlowAll, ArePlain, Flow, Seen, IsPlain;
    var a, b := Element("span", map[], [Text("a")]), Element("span", map[], [Text("b")]);
    var body := Element("body", map[], [a, Text(" "), b]);
    SpanIs(host, "a");
    SpanIs(host, "b");
    SpaceIs(host);
    OfThree(host, a, Text(" "), b);
    assert IsWord("a") && IsWord("b") && IsWord("ab") && Blank(" ");
    WordIsOne("a");
    WordIsOne("b");
    WordIsOne("ab");
    WordsApart("a", " ", "b");
    assert "a" + "" + "b" == "ab";
    RenderingFlows(host, body);
  }

  lemma SpanIs(host: Host, s: string)
    requires IsWord(s)
    ensures var span := Element("span", map[], [Text(s)]);
            Seen(span) == s && Flow(host, span, false, false) == s && IsPlain(span)
  {
    var span := Element("span", map[], [Text(s)]);
    OneMoreNode(host, [], Text(s));
    assert [] + [Text(s)] == [Text(s)];
    assert s[0] in s;
  }

  lemma SpaceIs(host: Host)
    ensures Seen(Text(" ")) == " " && Flow(host, Text(" "), false, false) == "" && IsPlain(Text(" "))
  {
    AsciiWhitespace(' ');
  }

  lemma OneMoreNode(host: Host, nodes: seq<Node>, node: Node)
    ensures SeenAll(nodes + [node]) == SeenAll(nodes) + Seen(node)
    ensures FlowAll(host, nodes + [node], false, false)
         == FlowAll(host, nodes, false, false) + Flow(host, node, false, false)
    ensures ArePlain(nodes + [node]) <==> ArePlain(nodes) && IsPlain(node)
    ensures SeenAll([]) == "" && FlowAll(host, [], false, false) == "" && ArePlain([])
  {
    hide Seen, Flow, IsPlain;
    assert (nodes + [node])[..|nodes|] == nodes;
  }

  lemma OfThree(host: Host, x: Node, y: Node, z: Node)
    ensures SeenAll([x, y, z]) == Seen(x) + Seen(y) + Seen(z)
    ensures FlowAll(host, [x, y, z], false, false)
         == Flow(host, x, false, false) + Flow(host, y, false, false) + Flow(host, z, false, false)
    ensures ArePlain([x, y, z]) <==> IsPlain(x) && IsPlain(y) && IsPlain(z)
  {
    hide Seen, Flow, IsPlain, SeenAll, FlowAll, ArePlain;
    OneMoreNode(host, [], x);
    OneMoreNode(host, [x], y);
    OneMoreNode(host, [x, y], z);
    assert [] + [x] == [x] && [x] + [y] == [x, y] && [x, y] + [z] == [x, y, z];
  }

  // ---------- Blocks of text ----------

  /** The words of the texts, one text after the other. */
  function TextWords(nodes: seq<Node>): seq<string>
    decreases nodes
  {
    if nodes == [] then [] else
    TextWords(nodes[..|nodes| - 1]) +
    match nodes[|nodes| - 1]
    case Text(text) => Words(text)
    case Other(_) => []
    case Element(_, _, children) => TextWords(children)
  }

  /** Nothing but texts and blocks with words in them, no text directly behind another one. */
  predicate IsBlockTree(nodes: seq<Node>)
    decreases nodes
  {
    nodes == [] ||
    (var (init, node) := (nodes[..|nodes| - 1], nodes[|nodes| - 1]);
     IsBlockTree(init) &&
     match node
     case Text(_) => init == [] || init[|init| - 1].Element?
     case Other(_) => false
     case Element(name, _, children) => IsBlock(name) && IsBlockTree(children) && TextWords(children) != [])
  }

  lemma {:induction false} BlockTreeFlows(host: Host, nodes: seq<Node>, inPre: bool)
    requires IsBlockTree(nodes)
    ensures Words(FlowAll(host, nodes, inPre, false)) == TextWords(nodes)
    ensures nodes != [] && nodes[|nodes| - 1].Element? ==> !EndsInText(FlowAll(host, nodes, inPre, false))
    decreases nodes
  {
    hide Words, Flow, StartsInText, EndsInText;
    NoWords();
    if nodes == [] {
    } else {
      var (init, node) := (nodes[..|nodes| - 1], nodes[|nodes| - 1]);
      BlockTreeFlows(host, init, inPre);
      var before := FlowAll(host, init, inPre, false);
      match node
      case Text(text) =>
        TextFlows(host, before, text, inPre);
      case Element(name, _, children) =>
        BlockTreeFlows(host, children, false);
        BlockFlows(host, node, inPre);
        ParagraphOfWords(before, FlowAll(host, children, false, false));
    }
  }

  lemma TextFlows(host: Host, before: string, text: string, inPre: bool)
    requires before == "" || !EndsInText(before)
    ensures Words(before + Flow(host, Text(text), inPre, false)) == Words(before) + Words(text)
  {
    hide Words, IsWhitespace, Blank;
    NoWords();
    BlankHasNoWords(text);
    WordsOfConcat(before, text);
    assert before + "" == before;
  }

  lemma BlockFlows(host: Host, node: Node, inPre: bool)
    requires node.Element? && IsBlock(node.name)
    ensures Flow(host, node, inPre, false) == Paragraph(FlowAll(host, node.children, false, false))
  {
    hide Paragraph, FlowAll;
  }

  lemma ParagraphOfWords(before: string, text: string)
    requires Words(text) != []
    ensures Words(before + Paragraph(text)) == Words(before) + Words(text)
    ensures !EndsInText(before + Paragraph(text))
  {
    hide Words, IsWhitespace, Blank;
    BlankHasNoWords(text);
    ApartIs(before, text);
  }

  /** The words of a tree of blocks and texts are the words of its texts, in order. */
  lemma BlocksKeepWords(host: Host, root: Node)
    requires root.Element? && IsBlockTree(root.children)
    ensures Words(Render(host, root)) == TextWords(root.children)
  {
    hide Words, Render, FlowAll, IsBlockTree, TextWords;
    RenderingFlows(host, root);
    BlockTreeFlows(host, root.children, root.name == "pre");
  }
}
