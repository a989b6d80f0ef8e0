/**
 The path patterns of robots.txt (section 2.2.3 of RFC 9309): `*` stands for any characters and a
 final `$` for the end of the path. The program looks for the pieces between the stars greedily
 from the left.
 */
module RobotsPattern {
  import opened Sequences
  import opened Wrappers

  // ---------- What a pattern means ----------

  /** The whole text is an expansion of the pattern. */
  predicate Full(pattern: string, text: string)
    decreases |pattern| + |text|
  {
    if pattern == "" then text == ""
    else if pattern[0] == '*' then
      Full(pattern[1..], text) || (text != "" && Full(pattern, text[1..]))
    else text != "" && text[0] == pattern[0] && Full(pattern[1..], text[1..])
  }

  /** Some prefix of the text is an expansion of the pattern. */
  predicate MatchesPrefix(pattern: string, text: string) {
    exists n | 0 <= n <= |text| :: Full(pattern, text[..n])
  }

  /** The whole text is an expansion and no shorter prefix of it is. */
  predicate MatchesFirstAtEnd(pattern: string, text: string) {
    Full(pattern, text) && forall n | 0 <= n < |text| :: !Full(pattern, text[..n])
  }

  // ---------- The matcher ----------

  /** `split('*')` */
  function Split(pattern: string): (r: seq<string>)
    ensures r != []
  {
    if pattern == "" then [""]
    else if pattern[0] == '*' then [""] + Split(pattern[1..])
    else
      var rest := Split(pattern[1..]);
      [[pattern[0]] + rest[0]] + rest[1..]
  }

  /** The piece stands in the text at this place. */
  predicate At(text: string, piece: string, i: nat) {
    i + |piece| <= |text| && text[i..i + |piece|] == piece
  }

  lemma AtTail(text: string, piece: string, from: nat, i: nat)
    requires from <= |text|
    ensures At(text[from..], piece, i) <==> At(text, piece, from + i)
  {
    if i + |piece| <= |text| - from {
      assert text[from..][i..i + |piece|] == text[from + i..from + i + |piece|];
    }
  }

  lemma AtPrefix(text: string, piece: string, to: nat, i: nat)
    requires to <= |text|
    ensures At(text[..to], piece, i) <==> At(text, piece, i) && i + |piece| <= to
  {
    if i + |piece| <= to {
      assert text[..to][i..i + |piece|] == text[i..i + |piece|];
    }
  }

  /** The leftmost occurrence. */
  function Find(text: string, piece: string): (r: Option<nat>)
    ensures r.Some? ==> At(text, piece, r.value) && forall i: nat | i < r.value :: !At(text, piece, i)
    ensures r.None? ==> forall i: nat :: !At(text, piece, i)
  {
    if At(text, piece, 0) then Some(0)
    else if text == "" then None
    else
      assert forall i: nat | i > 0 :: At(text, piece, i) <==> At(text[1..], piece, i - 1) by {
        forall i: nat | i > 0 ensures At(text, piece, i) <==> At(text[1..], piece, i - 1) {
          AtTail(text, piece, 1, i - 1);
        }
      }
      match Find(text[1..], piece)
      case None => None
      case Some(i) => Some(i + 1)
  }

  /** The offset after the pieces behind a star, each taken at its leftmost place. */
  function Greedy(pieces: seq<string>, text: string): Option<nat> {
    if pieces == [] then Some(0) else
    match Find(text, pieces[0])
    case None => None
    case Some(i) =>
      match Greedy(pieces[1..], text[i + |pieces[0]|..])
      case None => None
      case Some(n) => Some(i + |pieces[0]| + n)
  }

  /** The offset after all pieces, the first of which stands at the start. */
  function Offset(pattern: string, text: string): Option<nat> {
    var pieces := Split(pattern);
    if !At(text, pieces[0], 0) then None else
    match Greedy(pieces[1..], text[|pieces[0]|..])
    case None => None
    case Some(n) => Some(|pieces[0]| + n)
  }

  function Literals(pattern: string): nat {
    if pattern == "" then 0 else Literals(pattern[1..]) + if pattern[0] == '*' then 0 else 1
  }

  predicate Anchored(pattern: string) {
    pattern != "" && pattern[|pattern| - 1] == '$'
  }

  /** The pattern without its final dollar. */
  function Body(pattern: string): string {
    if Anchored(pattern) then pattern[..|pattern| - 1] else pattern
  }

  /** What the matcher returns: the number of literal characters, or None. */
  function PatternMatch(pattern: string, path: string): Option<nat> {
    var offset := Offset(Body(pattern), path);
    if offset.None? || (Anchored(pattern) && offset.value != |path|) then None
    else Some(Literals(Body(pattern)))
  }

  /** Where the offset of the whole stands when the pieces up to `index` are done. */
  predicate Reached(body: string, path: string, pieces: seq<string>, index: nat, offset: nat)
    requires index <= |pieces| && offset <= |path|
  {
    Offset(body, path) == match Greedy(pieces[index..], path[offset..])
                          case None => None
                          case Some(n) => Some(offset + n)
  }

  lemma EmptyIsFound(text: string)
    ensures Find(text, "") == Some(0)
  {
  }

  lemma FoundWithin(text: string, piece: string)
    ensures Find(text, piece).Some? ==> Find(text, piece).value + |piece| <= |text|
  {
  }

  /** One more piece, whether it is empty and skipped or searched for. */
  lemma ReachedNext(body: string, path: string, pieces: seq<string>, index: nat, offset: nat)
    requires index < |pieces| && offset <= |path|
    requires Reached(body, path, pieces, index, offset)
    ensures Find(path[offset..], pieces[index]).None? ==> Offset(body, path).None?
    ensures Find(path[offset..], pieces[index]).Some? ==>
              var next := offset + Find(path[offset..], pieces[index]).value + |pieces[index]|;
              next <= |path| && Reached(body, path, pieces, index + 1, next)
    ensures pieces[index] == "" ==> Find(path[offset..], pieces[index]) == Some(0)
  {
    hide At, Offset;
    assert pieces[index..][1..] == pieces[index + 1..] && pieces[index..][0] == pieces[index];
    EmptyIsFound(path[offset..]);
    FoundWithin(path[offset..], pieces[index]);
    if Find(path[offset..], pieces[index]).Some? {
      var step := Find(path[offset..], pieces[index]).value + |pieces[index]|;
      assert path[offset..][step..] == path[offset + step..];
    }
  }

  /** The loop of robots_pattern_match, which skips empty pieces and keeps an offset. */
  method MatchPattern(pattern: string, path: string) returns (r: Option<nat>)
    ensures r == PatternMatch(pattern, path)
  {
    hide Offset, Greedy, Find, At, Split;
    var anchored := Anchored(pattern);
    var body := Body(pattern);
    var pieces := Split(body);
    var offset: nat := 0;
    for index := 0 to |pieces|
      invariant offset <= |path|
      invariant index == 0 ==> offset == 0
      invariant index > 0 ==> Reached(body, path, pieces, index, offset)
    {
      var piece := pieces[index];
      if index == 0 {
        FirstPiece(body, path);
        if piece == "" {
          continue;
        }
        if !At(path, piece, 0) {
          return None;
        }
        offset := offset + |piece|;
      } else {
        ReachedNext(body, path, pieces, index, offset);
        if piece == "" {
          continue;
        }
        var found := Find(path[offset..], piece);
        if found.None? {
          return None;
        }
        offset := offset + found.value + |piece|;
      }
    }
    AllPiecesDone(body, path, pieces, offset);
    if anchored && offset != |path| {
      return None;
    }
    return Some(Literals(body));
  }

  lemma FirstPiece(body: string, path: string)
    ensures var first := Split(body)[0];
            && (first == "" ==> At(path, first, 0))
            && (At(path, first, 0) ==> |first| <= |path| && Reached(body, path, Split(body), 1, |first|))
            && (!At(path, first, 0) ==> Offset(body, path).None?)
  {
    hide At, Find, Greedy;
    var first := Split(body)[0];
    AtStart(path, first);
  }

  lemma AtStart(text: string, piece: string)
    ensures piece == "" ==> At(text, piece, 0)
    ensures At(text, piece, 0) ==> |piece| <= |text|
  {
  }

  lemma AllPiecesDone(body: string, path: string, pieces: seq<string>, offset: nat)
    requires offset <= |path| && Reached(body, path, pieces, |pieces|, offset)
    ensures Offset(body, path) == Some(offset)
  {
    assert pieces[|pieces|..] == [];
  }

  // ---------- The pieces mean the pattern ----------

  /** The text is the pieces in order, with anything in front of each. */
  ghost predicate Stars(pieces: seq<string>, text: string)
    decreases pieces, 1
  {
    if pieces == [] then text == "" else
    exists k: nat :: StarsFrom(pieces, text, k)
  }

  /** The first piece stands at k and the others follow. */
  ghost predicate StarsFrom(pieces: seq<string>, text: string, k: nat)
    requires pieces != []
    decreases pieces, 0
  {
    At(text, pieces[0], k) && Stars(pieces[1..], text[k + |pieces[0]|..])
  }

  lemma StarsWitness(pieces: seq<string>, text: string) returns (k: nat)
    requires pieces != [] && Stars(pieces, text)
    ensures StarsFrom(pieces, text, k)
  {
    k :| StarsFrom(pieces, text, k);
  }

  lemma StarsAbsorb(pieces: seq<string>, x: string, text: string)
    requires pieces != [] && Stars(pieces, text)
    ensures Stars(pieces, x + text)
  {
    hide At;
    var k: nat :| StarsFrom(pieces, text, k);
    StarsFromEnd(pieces, text, k);
    AtTail(x + text, pieces[0], |x|, k);
    assert (x + text)[|x|..] == text;
    assert (x + text)[|x| + k + |pieces[0]|..] == text[k + |pieces[0]|..];
    assert StarsFrom(pieces, x + text, |x| + k);
  }

  lemma StarsFromEnd(pieces: seq<string>, text: string, k: nat)
    requires pieces != [] && StarsFrom(pieces, text, k)
    ensures k + |pieces[0]| <= |text|
  {
  }

  /** A star in front lets the rest start anywhere. */
  lemma {:induction false} FullOfStar(pattern: string, text: string)
    requires pattern != "" && pattern[0] == '*'
    ensures Full(pattern, text) <==> exists k | 0 <= k <= |text| :: Full(pattern[1..], text[k..])
    decreases |text|
  {
    if Full(pattern[1..], text) {
      assert text[0..] == text;
    } else if text != "" {
      FullOfStar(pattern, text[1..]);
      assert forall k | 1 <= k <= |text| :: text[k..] == text[1..][k - 1..];
      if k :| 0 <= k <= |text[1..]| && Full(pattern[1..], text[1..][k..]) {
        assert text[k + 1..] == text[1..][k..];
      }
      assert text[0..] == text;
    } else {
      assert text[0..] == text;
    }
  }

  /** The first piece stands at the start and the others follow, with anything in front of each. */
  ghost predicate Whole(pieces: seq<string>, text: string)
    requires pieces != []
  {
    At(text, pieces[0], 0) && Stars(pieces[1..], text[|pieces[0]|..])
  }

  lemma WholeOfTail(pieces: seq<string>, text: string, k: nat)
    requires pieces != [] && k <= |text|
    ensures Whole(pieces, text[k..]) <==> StarsFrom(pieces, text, k)
  {
    AtTail(text, pieces[0], k, 0);
    if At(text, pieces[0], k) {
      assert text[k..][|pieces[0]|..] == text[k + |pieces[0]|..];
    }
  }

  lemma {:induction false} FullIsPieces(pattern: string, text: string)
    ensures Full(pattern, text) <==> Whole(Split(pattern), text)
    decreases 3 * |pattern|
  {
    var pieces := Split(pattern);
    if pattern == "" {
      assert text[0..] == text;
    } else if pattern[0] == '*' {
      StarPieces(pattern, text);
    } else if text != "" {
      var rest := Split(pattern[1..]);
      FullIsPieces(pattern[1..], text[1..]);
      assert pieces[0] == [pattern[0]] + rest[0] && pieces[1..] == rest[1..];
      assert At(text, pieces[0], 0) <==> text[0] == pattern[0] && At(text[1..], rest[0], 0) by {
        AtTail(text, rest[0], 1, 0);
        if |pieces[0]| <= |text| {
          assert text[0..0 + |pieces[0]|] == [text[0]] + text[1..1 + |rest[0]|];
        }
      }
      if At(text, pieces[0], 0) {
        assert text[|pieces[0]|..] == text[1..][|rest[0]|..];
      }
    }
  }

  lemma StarPieces(pattern: string, text: string)
    requires pattern != "" && pattern[0] == '*'
    ensures Full(pattern, text) <==> Whole(Split(pattern), text)
    decreases 3 * |pattern| - 1
  {
    var pieces, rest := Split(pattern), Split(pattern[1..]);
    assert pieces[0] == "" && pieces[1..] == rest && text[0..] == text;
    assert Whole(pieces, text) <==> Stars(rest, text) by { EmptyPiece(text); }
    FullOfStar(pattern, text);
    StarLeads(pattern[1..], text);
  }

  /** The rest of the pattern fits somewhere when its pieces follow a gap. */
  lemma StarLeads(pattern: string, text: string)
    ensures (exists k | 0 <= k <= |text| :: Full(pattern, text[k..])) <==> Stars(Split(pattern), text)
    decreases 3 * |pattern| + 1
  {
    hide At, Full, Whole;
    var pieces := Split(pattern);
    if k :| 0 <= k <= |text| && Full(pattern, text[k..]) {
      FullIsPieces(pattern, text[k..]);
      WholeOfTail(pieces, text, k);
      assert StarsFrom(pieces, text, k);
    }
    if Stars(pieces, text) {
      var k := StarsWitness(pieces, text);
      StarsFromEnd(pieces, text, k);
      FullIsPieces(pattern, text[k..]);
      WholeOfTail(pieces, text, k);
      assert Full(pattern, text[k..]);
    }
  }

  lemma EmptyPiece(text: string)
    ensures At(text, "", 0)
  {
  }

  // ---------- Greedy is leftmost ----------

  lemma {:induction false} GreedyIsSound(pieces: seq<string>, text: string)
    requires Greedy(pieces, text).Some?
    ensures var n := Greedy(pieces, text).value; n <= |text| && Stars(pieces, text[..n])
    decreases |pieces|
  {
    if pieces == [] {
    } else {
      var q := pieces[0];
      var i := Find(text, q).value;
      var tail := text[i + |q|..];
      GreedyIsSound(pieces[1..], tail);
      var n, m := Greedy(pieces, text).value, Greedy(pieces[1..], tail).value;
      AtPrefix(text, q, n, i);
      assert text[..n][i + |q|..] == tail[..m];
      assert StarsFrom(pieces, text[..n], i);
    }
  }

  /** Taking each piece at its leftmost place never misses a match and ends earliest. */
  lemma {:induction false} GreedyIsEarliest(pieces: seq<string>, text: string, m: nat)
    requires m <= |text| && Stars(pieces, text[..m])
    ensures Greedy(pieces, text).Some? && Greedy(pieces, text).value <= m
    decreases |pieces|
  {
    hide At, Stars;
    if pieces == [] {
    } else {
      var q := pieces[0];
      var k := FirstStar(pieces, text[..m]);
      AtPrefix(text, q, m, k);
      assert Find(text, q).Some?;
      var i := Find(text, q).value;
      assert i <= k;
      if pieces[1..] != [] {
        var gap, rest := text[i + |q|..k + |q|], text[..m][k + |q|..];
        StarsAbsorb(pieces[1..], gap, rest);
        SlicesMeet(text, i + |q|, k + |q|, m);
        GreedyIsEarliest(pieces[1..], text[i + |q|..], m - i - |q|);
      }
    }
  }

  lemma SlicesMeet(text: string, a: nat, b: nat, m: nat)
    requires a <= b <= m <= |text|
    ensures text[a..][..m - a] == text[a..b] + text[..m][b..]
  {
  }

  lemma FirstStar(pieces: seq<string>, text: string) returns (k: nat)
    requires pieces != [] && Stars(pieces, text)
    ensures At(text, pieces[0], k) && k + |pieces[0]| <= |text| && Stars(pieces[1..], text[k + |pieces[0]|..])
  {
    k := StarsWitness(pieces, text);
  }

  lemma OffsetMatches(pattern: string, text: string)
    requires Offset(pattern, text).Some?
    ensures var n := Offset(pattern, text).value; n <= |text| && Full(pattern, text[..n])
  {
    var pieces := Split(pattern);
    var first, others := pieces[0], pieces[1..];
    GreedyIsSound(others, text[|first|..]);
    var n := Offset(pattern, text).value;
    assert text[..n][|first|..] == text[|first|..][..n - |first|];
    AtPrefix(text, first, n, 0);
    FullIsPieces(pattern, text[..n]);
  }

  lemma OffsetIsEarliest(pattern: string, text: string, m: nat)
    requires m <= |text| && Full(pattern, text[..m])
    ensures Offset(pattern, text).Some? && Offset(pattern, text).value <= m
  {
    hide Full;
    var first, others := Split(pattern)[0], Split(pattern)[1..];
    FullIsPieces(pattern, text[..m]);
    AtPrefix(text, first, m, 0);
    assert text[..m][|first|..] == text[|first|..][..m - |first|];
    GreedyIsEarliest(others, text[|first|..], m - |first|);
  }

  /** The offset is the length of the shortest prefix that is an expansion of the pattern. */
  lemma OffsetIsShortest(pattern: string, text: string)
    ensures Offset(pattern, text).Some? ==>
              var n := Offset(pattern, text).value;
              && n <= |text| && Full(pattern, text[..n])
              && forall m | 0 <= m < n :: !Full(pattern, text[..m])
    ensures Offset(pattern, text).None? ==> forall m | 0 <= m <= |text| :: !Full(pattern, text[..m])
  {
    hide Offset, Full;
    if Offset(pattern, text).Some? {
      OffsetMatches(pattern, text);
    }
    forall m | 0 <= m <= |text|
      ensures Full(pattern, text[..m]) ==> Offset(pattern, text).Some? && Offset(pattern, text).value <= m
    {
      if Full(pattern, text[..m]) {
        OffsetIsEarliest(pattern, text, m);
      }
    }
  }

  // ---------- Main results ----------

  /** Without a final dollar the matcher is exactly the rule of the standard. */
  lemma OpenPatternsAreExact(pattern: string, path: string)
    requires !Anchored(pattern)
    ensures PatternMatch(pattern, path).Some? <==> MatchesPrefix(pattern, path)
  {
    OffsetIsShortest(pattern, path);
  }

  /** With a final dollar the matcher accepts a path exactly when the path is an expansion and
      nothing shorter in front of it is. */
  lemma AnchoredPatternsMatchFirstAtEnd(pattern: string, path: string)
    requires Anchored(pattern)
    ensures PatternMatch(pattern, path).Some? <==> MatchesFirstAtEnd(Body(pattern), path)
  {
    OffsetIsShortest(Body(pattern), path);
    assert path[..|path|] == path;
  }

  /** So it never accepts wrongly, and it misses a path exactly when a proper prefix of the path
      is an expansion too. */
  lemma AnchoredPatternsAgreeUnlessShorter(pattern: string, path: string)
    requires Anchored(pattern)
    ensures PatternMatch(pattern, path).Some? ==> Full(Body(pattern), path)
    ensures (PatternMatch(pattern, path).Some? <==> Full(Body(pattern), path))
            <==> !(Full(Body(pattern), path) && exists n | 0 <= n < |path| :: Full(Body(pattern), path[..n]))
  {
    AnchoredPatternsMatchFirstAtEnd(pattern, path);
  }

  lemma {:induction false} LiteralsAreNoStars(body: string)
    ensures Literals(body) == |body| - multiset(body)['*']
  {
    if body == "" {
    } else {
      LiteralsAreNoStars(body[1..]);
      assert body == [body[0]] + body[1..];
      assert multiset(body) == multiset{body[0]} + multiset(body[1..]);
    }
  }

  /** What a rule counts for: the characters of its pattern without the stars and a final dollar. */
  function TextLength(pattern: string): int {
    if pattern != "" && pattern[|pattern| - 1] == '$' then |pattern| - 1 - multiset(pattern)['*']
    else |pattern| - multiset(pattern)['*']
  }

  /** A matching pattern is weighed by its text, whatever the path. */
  lemma MatchesWeighTheirText(pattern: string, path: string)
    ensures PatternMatch(pattern, path).Some? ==> PatternMatch(pattern, path).value == TextLength(pattern)
  {
    hide Offset;
    LiteralsAreNoStars(Body(pattern));
    if Anchored(pattern) {
      assert pattern == Body(pattern) + "$";
      assert multiset(pattern) == multiset(Body(pattern)) + multiset{'$'};
    }
  }

  /** A pattern without stars and without a final dollar matches exactly the paths it begins, and counts
      for all its characters. */
  lemma PlainPatternsArePrefixes(pattern: string, path: string)
    requires '*' !in pattern && (pattern == "" || pattern[|pattern| - 1] != '$')
    ensures PatternMatch(pattern, path) == if pattern <= path then Some(|pattern|) else None
  {
    OpenPatternsAreExact(pattern, path);
    MatchesWeighTheirText(pattern, path);
    forall n | 0 <= n <= |path| ensures Full(pattern, path[..n]) <==> path[..n] == pattern {
      StarFreeIsEquality(pattern, path[..n]);
    }
    if pattern <= path {
      assert path[..|pattern|] == pattern && Full(pattern, path[..|pattern|]);
    }
    assert multiset(pattern)['*'] == 0;
  }

  lemma {:induction false} StarFreeIsEquality(pattern: string, text: string)
    requires '*' !in pattern
    ensures Full(pattern, text) <==> text == pattern
    decreases |pattern|
  {
    if pattern == "" || text == "" {
    } else {
      StarFreeIsEquality(pattern[1..], text[1..]);
      assert pattern == [pattern[0]] + pattern[1..] && text == [text[0]] + text[1..];
    }
  }

  /** A pattern without stars and with a final dollar names one path. */
  lemma AnchoredStarFreeIsEquality(pattern: string, path: string)
    requires Anchored(pattern) && '*' !in pattern
    ensures PatternMatch(pattern, path).Some? <==> path == Body(pattern)
  {
    AnchoredPatternsMatchFirstAtEnd(pattern, path);
    forall n | 0 <= n <= |path| ensures Full(Body(pattern), path[..n]) <==> path[..n] == Body(pattern) {
      StarFreeIsEquality(Body(pattern), path[..n]);
    }
    assert path[..|path|] == path;
  }

  function Literal(c: char): string {
    if c == '*' then "" else [c]
  }

  /** The pattern with nothing for its stars. */
  function Bare(pattern: string): string {
    if pattern == "" then "" else Literal(pattern[0]) + Bare(pattern[1..])
  }

  lemma OneMoreCharacter(pattern: string, text: string)
    requires pattern != "" && Full(pattern[1..], text)
    ensures Full(pattern, Literal(pattern[0]) + text)
  {
    assert "" + text == text;
    assert pattern[0] != '*' ==> ([pattern[0]] + text)[1..] == text;
  }

  /** Every star may stand for nothing. */
  lemma {:induction false} BareIsFull(pattern: string)
    ensures Full(pattern, Bare(pattern))
  {
    if pattern == "" {
    } else {
      BareIsFull(pattern[1..]);
      OneMoreCharacter(pattern, Bare(pattern[1..]));
    }
  }

  /** A star in front may stand for anything. */
  lemma {:induction false} StarTakes(pattern: string, gap: string, text: string)
    requires pattern != "" && pattern[0] == '*' && Full(pattern[1..], text)
    ensures Full(pattern, gap + text)
    decreases |gap|
  {
    if gap == "" {
      assert gap + text == text;
    } else {
      StarTakes(pattern, gap[1..], text);
      assert (gap + text)[1..] == gap[1..] + text;
    }
  }

  /** The characters in front of a star, something for the star, and the characters behind it. */
  function WithGap(pattern: string, i: nat, gap: string): string
    requires i < |pattern|
  {
    if i == 0 then gap + Bare(pattern[1..]) else Literal(pattern[0]) + WithGap(pattern[1..], i - 1, gap)
  }

  lemma {:induction false} GapIsFull(pattern: string, i: nat, gap: string)
    requires i < |pattern| && pattern[i] == '*'
    ensures Full(pattern, WithGap(pattern, i, gap))
    decreases i
  {
    if i == 0 {
      BareIsFull(pattern[1..]);
      StarTakes(pattern, gap, Bare(pattern[1..]));
    } else {
      GapIsFull(pattern[1..], i - 1, gap);
      OneMoreCharacter(pattern, WithGap(pattern[1..], i - 1, gap));
    }
  }

  /** With the characters behind the star put at it too, the bare pattern stands in front. */
  lemma {:induction false} BareInFront(pattern: string, i: nat, more: string)
    requires i < |pattern| && pattern[i] == '*'
    ensures var after := Bare(pattern[i + 1..]);
            WithGap(pattern, i, after + more) == Bare(pattern) + (more + after)
    decreases i
  {
    hide Literal;
    var after := Bare(pattern[i + 1..]);
    if i == 0 {
      assert Literal('*') == "" by { StarIsNotLiteral(); }
      assert Bare(pattern) == "" + after == after;
      Together(after, more, after);
    } else {
      assert pattern[1..][i..] == pattern[i + 1..];
      BareInFront(pattern[1..], i - 1, more);
      Together(Literal(pattern[0]), Bare(pattern[1..]), more + after);
    }
  }

  lemma StarIsNotLiteral()
    ensures Literal('*') == ""
  {
  }

  /** A pattern with a star has an expansion with a shorter one in front. */
  lemma StarHasTwoExpansions(body: string) returns (path: string)
    requires '*' in body
    ensures Full(body, path) && exists n | 0 <= n < |path| :: Full(body, path[..n])
  {
    hide Full;
    var i :| 0 <= i < |body| && body[i] == '*';
    var after := Bare(body[i + 1..]);
    path := WithGap(body, i, after + "x");
    GapIsFull(body, i, after + "x");
    BareInFront(body, i, "x");
    BareIsFull(body);
    assert path[..|Bare(body)|] == Bare(body);
  }

  /** So the matcher follows the standard on all paths exactly for the patterns without stars. */
  lemma AnchoredPatternsAreExactWithoutStars(pattern: string)
    requires Anchored(pattern)
    ensures (forall path :: PatternMatch(pattern, path).Some? <==> Full(Body(pattern), path)) <==> '*' !in pattern
  {
    hide Full, PatternMatch;
    assert pattern == Body(pattern) + "$";
    if '*' in pattern {
      var path := StarHasTwoExpansions(Body(pattern));
      AnchoredPatternsAgreeUnlessShorter(pattern, path);
    } else {
      forall path ensures PatternMatch(pattern, path).Some? <==> Full(Body(pattern), path) {
        AnchoredStarFreeIsEquality(pattern, path);
        StarFreeIsEquality(Body(pattern), path);
      }
    }
  }

  /** The miss is real: the standard lets this pattern match this path. */
  lemma AnchoredStarCanMiss()
    ensures Full("/*a", "/aba") && PatternMatch("/*a$", "/aba").None?
  {
    assert "/*a$"[..3] == "/*a";
    assert Full("a", "a") by { assert Full("", ""); }
    assert Full("*a", "a");
    assert Full("*a", "ba") by { assert "ba"[1..] == "a"; }
    assert Full("*a", "aba") by { assert "aba"[1..] == "ba"; }
    assert Full("/*a", "/aba") by { assert "/*a"[1..] == "*a" && "/aba"[1..] == "aba"; }
    assert "/aba"[..2] == "/a";
    assert Full("/*a", "/a") by { assert "/*a"[1..] == "*a" && "/a"[1..] == "a"; }
    AnchoredPatternsMatchFirstAtEnd("/*a$", "/aba");
  }
}
