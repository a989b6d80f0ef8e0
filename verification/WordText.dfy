/** The words of a text, and how they fare when texts are put together. */
module WordText {
  import opened Sequences
  import opened Text
  import opened BlankLines

  /** The length of the run of characters before the first whitespace. */
  function WordLength(s: string): (n: nat)
    ensures n <= |s|
  {
    if s == "" || IsWhitespace(s[0]) then 0 else 1 + WordLength(s[1..])
  }

  /** `split_whitespace()` */
  function Words(s: string): seq<string> {
    if s == "" then []
    else if IsWhitespace(s[0]) then Words(s[1..])
    else [s[..WordLength(s)]] + Words(s[WordLength(s)..])
  }

  /** collect_text */
  function CollectText(s: string): string {
    Join(Words(s), " ")
  }

  predicate StartsInText(s: string) {
    s != "" && !IsWhitespace(s[0])
  }

  predicate EndsInText(s: string) {
    s != "" && !IsWhitespace(s[|s| - 1])
  }

  /** Two runs of words; when the texts meet without space between, the last word of the one and the
      first of the other become one. */
  function Meet(a: seq<string>, b: seq<string>, fused: bool): seq<string> {
    if fused && a != [] && b != [] then a[..|a| - 1] + [a[|a| - 1] + b[0]] + b[1..] else a + b
  }

  // ---------- Putting two texts together ----------

  lemma {:induction false} LongWord(a: string, b: string)
    requires WordLength(a) == |a|
    ensures WordLength(a + b) == |a| + WordLength(b)
  {
    hide IsWhitespace;
    if a == "" {
      assert a + b == b;
    } else {
      LongWord(a[1..], b);
      assert (a + b)[1..] == a[1..] + b && (a + b)[0] == a[0];
    }
  }

  lemma {:induction false} ShortWord(a: string, b: string)
    requires WordLength(a) < |a|
    ensures WordLength(a + b) == WordLength(a) && IsWhitespace(a[WordLength(a)])
  {
    hide IsWhitespace;
    assert (a + b)[1..] == a[1..] + b && (a + b)[0] == a[0];
    if !IsWhitespace(a[0]) {
      ShortWord(a[1..], b);
    }
  }

  lemma FirstWord(s: string)
    requires StartsInText(s)
    ensures Words(s) == [s[..WordLength(s)]] + Words(s[WordLength(s)..]) && WordLength(s) > 0
  {
    hide IsWhitespace;
  }

  lemma LeadingSpace(s: string)
    requires s != "" && !StartsInText(s)
    ensures Words(s) == Words(s[1..])
  {
    hide IsWhitespace;
  }

  lemma NoWords()
    ensures Words("") == []
  {
  }

  /** A text without whitespace in front of another one. */
  lemma OneWordInFront(a: string, b: string)
    requires a != "" && WordLength(a) == |a|
    ensures Words(a) == [a] && Words(a + b) == Meet([a], Words(b), StartsInText(b))
  {
    hide IsWhitespace, Words;
    NoWords();
    LongWord(a, b);
    LongWord(a, "");
    FirstWord(a);
    assert a + b != "" && (a + b)[0] == a[0];
    FirstWord(a + b);
    assert a[..|a|] == a && a[|a|..] == "";
    if StartsInText(b) {
      FirstWord(b);
      var m := WordLength(b);
      assert (a + b)[..|a| + m] == a + b[..m] && (a + b)[|a| + m..] == b[m..];
    } else {
      assert WordLength(b) == 0;
      assert (a + b)[..|a|] == a && (a + b)[|a|..] == b;
    }
  }

  lemma MeetBehind(w: string, a: seq<string>, b: seq<string>, fused: bool)
    requires fused ==> a != [] && b != []
    ensures Meet([w] + a, b, fused) == [w] + Meet(a, b, fused)
  {
    if fused {
      assert ([w] + a)[..|a|] == [w] + a[..|a| - 1];
    }
  }

  lemma {:induction false} TextHasWords(s: string)
    ensures StartsInText(s) ==> Words(s) != []
    ensures EndsInText(s) ==> Words(s) != []
    decreases |s|
  {
    hide IsWhitespace;
    if s != "" && IsWhitespace(s[0]) && |s| > 1 {
      TextHasWords(s[1..]);
    }
  }

  /** The words of two texts together are those of both, the last and the first fused exactly when there
      is no whitespace between them. */
  lemma {:induction false} WordsOfConcat(a: string, b: string)
    ensures Words(a + b) == Meet(Words(a), Words(b), EndsInText(a) && StartsInText(b))
    decreases |a|
  {
    hide IsWhitespace, Words, WordLength;
    NoWords();
    if a == "" {
      assert a + b == b;
    } else if !StartsInText(a) {
      LeadingSpace(a);
      LeadingSpace(a + b);
      assert (a + b)[1..] == a[1..] + b;
      WordsOfConcat(a[1..], b);
      assert a[|a| - 1] == if |a| > 1 then a[1..][|a| - 2] else a[0];
    } else if WordLength(a) == |a| {
      OneWordInFront(a, b);
      NoSpaceAtEnd(a);
    } else {
      var n := WordLength(a);
      FirstWord(a);
      ShortWord(a, b);
      FirstWord(a + b);
      assert (a + b)[..n] == a[..n] && (a + b)[n..] == a[n..] + b;
      WordsOfConcat(a[n..], b);
      assert a[|a| - 1] == a[n..][|a| - n - 1];
      TextHasWords(a[n..]);
      TextHasWords(b);
      MeetBehind(a[..n], Words(a[n..]), Words(b), EndsInText(a) && StartsInText(b));
    }
  }

  lemma {:induction false} NoSpaceAtEnd(a: string)
    requires a != "" && WordLength(a) == |a|
    ensures EndsInText(a)
  {
    hide IsWhitespace;
    if |a| > 1 {
      NoSpaceAtEnd(a[1..]);
    }
  }

  // ---------- What words are ----------

  /** A word is a text without whitespace, and such a text is one word. */
  predicate IsWord(w: string) {
    w != "" && forall c | c in w :: !IsWhitespace(c)
  }

  lemma {:induction false} WordsAreWords(s: string)
    ensures forall w | w in Words(s) :: IsWord(w)
    decreases |s|
  {
    if s == "" {
    } else if IsWhitespace(s[0]) {
      WordsAreWords(s[1..]);
    } else {
      WordsAreWords(s[WordLength(s)..]);
      RunIsWord(s);
    }
  }

  lemma {:induction false} RunIsWord(s: string)
    ensures forall c | c in s[..WordLength(s)] :: !IsWhitespace(c)
  {
    hide IsWhitespace;
    if s == "" || IsWhitespace(s[0]) {
    } else {
      RunIsWord(s[1..]);
      assert s[..WordLength(s)] == [s[0]] + s[1..][..WordLength(s[1..])];
    }
  }

  lemma {:induction false} WholeRun(w: string)
    requires forall c | c in w :: !IsWhitespace(c)
    ensures WordLength(w) == |w|
  {
    if w == "" {
    } else {
      assert w[0] in w && forall c | c in w[1..] :: c in w;
      WholeRun(w[1..]);
    }
  }

  lemma WordIsOne(w: string)
    requires IsWord(w)
    ensures Words(w) == [w] && StartsInText(w) && EndsInText(w)
  {
    hide Words, IsWhitespace;
    WholeRun(w);
    OneWordInFront(w, "");
    assert w[0] in w && w[|w| - 1] in w;
  }

  /** A text has no words exactly when it is blank. */
  lemma {:induction false} BlankHasNoWords(s: string)
    ensures Words(s) == [] <==> Blank(s)
    decreases |s|
  {
    hide IsWhitespace;
    if s == "" {
    } else {
      assert s[0] in s;
      if IsWhitespace(s[0]) {
        BlankHasNoWords(s[1..]);
        assert s == [s[0]] + s[1..];
      }
    }
  }

  // ---------- Texts with the same words ----------

  /** The same words, and the same to whatever is put behind them. */
  ghost predicate Alike(a: string, b: string) {
    Words(a) == Words(b) && EndsInText(a) == EndsInText(b)
  }

  lemma AlikeBehind(a: string, b: string, more: string)
    requires Alike(a, b)
    ensures Alike(a + more, b + more)
  {
    hide Words, IsWhitespace, Meet;
    WordsOfConcat(a, more);
    WordsOfConcat(b, more);
    if more == "" {
      assert a + more == a && b + more == b;
    } else {
      assert (a + more)[|a + more| - 1] == more[|more| - 1] == (b + more)[|b + more| - 1];
    }
  }

  predicate IsTrimmed(s: string) {
    StartsInText(s) && EndsInText(s)
  }

  /** Texts with the same words and nothing to trim are the same to whatever is put around them. */
  lemma TextBetween(before: string, a: string, b: string, after: string)
    requires IsTrimmed(a) && IsTrimmed(b) && Words(a) == Words(b)
    ensures Alike(before + a + after, before + b + after)
  {
    hide Words, IsWhitespace, Meet;
    WordsOfConcat(before, a);
    WordsOfConcat(before, b);
    AlikeBehind(before + a, before + b, after);
  }

  // ---------- Space around words ----------

  lemma SpaceInFront(pad: string, s: string)
    requires Blank(pad)
    ensures Words(pad + s) == Words(s)
  {
    hide Words, IsWhitespace;
    BlankHasNoWords(pad);
    WordsOfConcat(pad, s);
    BlankEndsInNoText(pad);
  }

  lemma SpaceBehind(s: string, pad: string)
    requires Blank(pad)
    ensures Words(s + pad) == Words(s)
    ensures pad != "" ==> !EndsInText(s + pad)
  {
    hide Words, IsWhitespace;
    BlankHasNoWords(pad);
    WordsOfConcat(s, pad);
    BlankEndsInNoText(pad);
  }

  lemma BlankEndsInNoText(pad: string)
    requires Blank(pad)
    ensures !EndsInText(pad) && !StartsInText(pad)
  {
    hide IsWhitespace;
    if pad != "" {
      assert pad[0] in pad && pad[|pad| - 1] in pad;
    }
  }

  /** Whitespace between two texts keeps their words apart. */
  lemma WordsApart(a: string, pad: string, b: string)
    requires Blank(pad) && pad != ""
    ensures Words(a + pad + b) == Words(a) + Words(b)
  {
    hide Words, IsWhitespace;
    SpaceBehind(a, pad);
    WordsOfConcat(a + pad, b);
  }

  lemma WordsOfTrim(s: string)
    ensures Words(Trim(s)) == Words(s)
    ensures Trim(s) != "" ==> IsTrimmed(Trim(s))
    ensures Trim(s) == "" <==> Blank(s)
  {
    hide Words, IsWhitespace, Trim;
    var before, after := TrimIs(s);
    SpaceInFront(before, Trim(s));
    SpaceBehind(before + Trim(s), after);
    BlankHasNoWords(s);
    BlankHasNoWords(Trim(s));
    if Trim(s) != "" {
      TextHasWords(Trim(s));
    }
  }

  lemma WordsOfTrimEnd(s: string)
    ensures Words(TrimEnd(s)) == Words(s)
    ensures TrimEnd(s) == "" <==> Blank(s)
  {
    hide Words, IsWhitespace;
    var after := TrimEndTakes(s);
    SpaceBehind(TrimEnd(s), after);
    BlankHasNoWords(s);
    BlankHasNoWords(TrimEnd(s));
    TextHasWords(TrimEnd(s));
  }

  // ---------- Words joined again ----------

  lemma {:induction false} WordsOfJoin(words: seq<string>)
    requires forall w | w in words :: IsWord(w)
    ensures Words(Join(words, " ")) == words
    ensures words != [] ==> IsTrimmed(Join(words, " "))
  {
    hide Words, IsWhitespace, IsWord;
    NoWords();
    if words == [] {
    } else {
      WordIsOne(words[0]);
      if |words| == 1 {
        assert words == [words[0]];
      } else {
        var rest := Join(words[1..], " ");
        WordsOfJoin(words[1..]);
        assert Blank(" ") by { AsciiWhitespace(' '); }
        WordsApart(words[0], " ", rest);
        assert words == [words[0]] + words[1..];
        var all := words[0] + " " + rest;
        assert all[0] == words[0][0] && all[|all| - 1] == rest[|rest| - 1];
      }
    }
  }

  /** collect_text keeps the words and leaves nothing to trim. */
  lemma WordsOfCollectText(s: string)
    ensures Words(CollectText(s)) == Words(s)
    ensures CollectText(s) == "" <==> Blank(s)
    ensures CollectText(s) != "" ==> IsTrimmed(CollectText(s))
  {
    hide Words, IsWhitespace, IsWord;
    WordsAreWords(s);
    WordsOfJoin(Words(s));
    BlankHasNoWords(s);
  }

  // ---------- Lines ----------

  /** The words of the lines, one line after the other. */
  function AllWords(lines: seq<string>): seq<string> {
    if lines == [] then [] else Words(lines[0]) + AllWords(lines[1..])
  }

  lemma {:induction false} AllWordsOfConcat(a: seq<string>, b: seq<string>)
    ensures AllWords(a + b) == AllWords(a) + AllWords(b)
  {
    hide Words;
    if a == [] {
      assert a + b == b;
    } else {
      AllWordsOfConcat(a[1..], b);
      assert (a + b)[1..] == a[1..] + b && (a + b)[0] == a[0];
    }
  }

  lemma AllWordsOfOne(line: string)
    ensures AllWords([line]) == Words(line)
  {
    assert AllWords([line][1..]) == [];
  }

  lemma NewlineIsBlank()
    ensures Blank("") && Blank("\n") && Blank("\r") && Blank(" ") && Blank("\n\n") && Blank("  ")
  {
  }

  lemma {:induction false} WordsOfLines(s: string)
    ensures AllWords(Lines(s)) == Words(s)
    decreases |s|
  {
    hide IsWhitespace, Words, Blank;
    NoWords();
    if s == "" {
    } else {
      var i := IndexOf(s, '\n');
      if i == |s| {
        AllWordsOfOne(s);
      } else {
        NewlineIsBlank();
        WordsOfLines(s[i + 1..]);
        WordsWithoutReturn(s[..i]);
        assert s == s[..i] + "\n" + s[i + 1..];
        WordsApart(s[..i], "\n", s[i + 1..]);
      }
    }
  }

  lemma WordsWithoutReturn(line: string)
    ensures Words(WithoutReturn(line)) == Words(line)
  {
    hide Words, Blank;
    NewlineIsBlank();
    if WithoutReturn(line) != line {
      assert line == WithoutReturn(line) + "\r";
      SpaceBehind(WithoutReturn(line), "\r");
    }
  }

  lemma {:induction false} WordsOfJoinedLines(lines: seq<string>)
    ensures Words(Join(lines, "\n")) == AllWords(lines)
  {
    hide Words, Blank;
    NoWords();
    NewlineIsBlank();
    if lines == [] {
    } else if |lines| == 1 {
      AllWordsOfOne(lines[0]);
      assert lines == [lines[0]];
    } else {
      WordsOfJoinedLines(lines[1..]);
      WordsApart(lines[0], "\n", Join(lines[1..], "\n"));
    }
  }

  lemma {:induction false} WordsOfSqueeze(lines: seq<string>)
    ensures AllWords(Squeeze(lines)) == AllWords(lines)
  {
    hide Words, Trim, TrimEnd, AllWords, TrailingBlanks;
    if lines == [] {
    } else {
      var init, line := lines[..|lines| - 1], lines[|lines| - 1];
      WordsOfSqueeze(init);
      WordsOfTrimEnd(line);
      WordsOfTrim(TrimEnd(line));
      NoWords();
      AllWordsOfConcat(init, [line]);
      AllWordsOfConcat(Squeeze(init), [TrimEnd(line)]);
      AllWordsOfConcat(Squeeze(init), [""]);
      AllWordsOfOne(line);
      AllWordsOfOne(TrimEnd(line));
      AllWordsOfOne("");
      assert lines == init + [line];
      BlankHasNoWords(TrimEnd(line));
    }
  }

  /** Collapsing blank lines keeps the words. */
  lemma CollapseKeepsWords(markdown: string)
    ensures Words(Collapse(markdown)) == Words(markdown)
  {
    hide Words, Lines, Squeeze, Trim, Join;
    var lines := Squeeze(Lines(markdown));
    WordsOfLines(markdown);
    WordsOfSqueeze(Lines(markdown));
    WordsOfJoinedLines(lines);
    WordsOfTrim(Join(lines, "\n"));
  }
}
