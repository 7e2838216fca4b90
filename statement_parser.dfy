/** `StatementParser`: partitioning a text into chunks, by blank-line paragraphs
    or by a fixed word window, and turning the extractor's answer into a list
    of statements. */
module StatementParser {
  import opened Wrappers
  import opened Text
  import opened Llm
  import opened Environment

  /*** Fixed-window chunking (`_split_long_text`) ***/

  /** The window that `len(current_chunk) >= max_words` really uses: with
      `max_words <= 0` the test fires after every word. */
  function WindowSize(maxWords: int): (k: nat)
    ensures k >= 1
    ensures maxWords >= 1 ==> k == maxWords
  {
    if maxWords < 1 then 1 else maxWords
  }

  /** The word groups of the greedy split: full windows from the front, then
      what is left over. */
  function Windows(words: seq<string>, maxWords: int): seq<seq<string>>
    decreases |words|
  {
    var k := WindowSize(maxWords);
    if words == [] then []
    else if |words| <= k then [words]
    else [words[..k]] + Windows(words[k..], maxWords)
  }

  /** Each group joined with single spaces. */
  function JoinEach(groups: seq<seq<string>>): (r: seq<string>)
    ensures |r| == |groups|
    ensures forall i | 0 <= i < |groups| :: r[i] == Join(" ", groups[i])
  {
    seq(|groups|, i requires 0 <= i < |groups| => Join(" ", groups[i]))
  }

  lemma JoinEachAppend(a: seq<seq<string>>, b: seq<seq<string>>)
    ensures JoinEach(a + b) == JoinEach(a) + JoinEach(b)
  {
  }

  /** The groups, concatenated, are the input: same order, nothing lost, no
      overlap. */
  lemma {:induction false} WindowsFlatten(words: seq<string>, maxWords: int)
    ensures Flatten(Windows(words, maxWords)) == words
    decreases |words|
  {
    var k := WindowSize(maxWords);
    if |words| > k {
      WindowsFlatten(words[k..], maxWords);
      assert words == words[..k] + words[k..];
    } else if words != [] {
      assert Flatten([words]) == words + Flatten([]);
    }
  }

  lemma MulBound(d: int, k: int)
    requires k >= 1 && -k < d * k < k
    ensures d == 0
  {
  }

  lemma DivStep(a: nat, k: nat)
    requires k >= 1
    ensures (a + k) / k == a / k + 1
    ensures (a + k) % k == a % k
  {
    var q, r := a / k, a % k;
    var q', r' := (a + k) / k, (a + k) % k;
    assert a == q * k + r;
    assert a + k == q' * k + r';
    assert (q' - q - 1) * k == q' * k - q * k - k;
    MulBound(q' - q - 1, k);
    assert q' * k == q * k + k;
  }

  /** Every group but the last has exactly the window's size, the last has
      between one word and the window's size, and there are ceil(n / size)
      groups. */
  lemma {:induction false} WindowsSizes(words: seq<string>, maxWords: int)
    ensures var g, k := Windows(words, maxWords), WindowSize(maxWords);
      && |g| == (|words| + k - 1) / k
      && (forall i | 0 <= i < |g| - 1 :: |g[i]| == k)
      && (g != [] ==> 1 <= |g[|g| - 1]| <= k)
    decreases |words|
  {
    var g, k := Windows(words, maxWords), WindowSize(maxWords);
    if |words| > k {
      var rest := Windows(words[k..], maxWords);
      WindowsSizes(words[k..], maxWords);
      assert g == [words[..k]] + rest;
      DivStep(|words| - k + k - 1, k);
    }
  }

  /** With `max_words <= 0` every word is a chunk of its own. */
  lemma {:induction false} WindowsOfNonPositive(words: seq<string>, maxWords: int)
    requires maxWords <= 0
    ensures |Windows(words, maxWords)| == |words|
    ensures forall i | 0 <= i < |words| :: Windows(words, maxWords)[i] == [words[i]]
    decreases |words|
  {
    if |words| > 1 {
      WindowsOfNonPositive(words[1..], maxWords);
    }
  }

  /** Splitting after a whole number of windows splits the groups there. */
  lemma {:induction false} WindowsAppend(a: seq<string>, b: seq<string>, maxWords: int)
    requires |a| % WindowSize(maxWords) == 0
    ensures Windows(a + b, maxWords) == Windows(a, maxWords) + Windows(b, maxWords)
    decreases |a|
  {
    var k := WindowSize(maxWords);
    if a == [] {
      assert a + b == b;
    } else {
      assert |a| >= k;
      assert (a + b)[..k] == a[..k];
      assert (a + b)[k..] == a[k..] + b;
      DivStep(|a| - k, k);
      WindowsAppend(a[k..], b, maxWords);
      if |a| == k {
        assert a[..k] == a && a[k..] == [];
        assert a[k..] + b == b;
        assert Windows(a, maxWords) == [a];
        assert Windows(a[k..], maxWords) == [];
        if b == [] {
          assert a + b == a;
        } else {
          assert Windows(a + b, maxWords) == [a] + Windows(b, maxWords);
        }
      } else {
        assert Windows(a, maxWords) == [a[..k]] + Windows(a[k..], maxWords);
        assert Windows(a + b, maxWords) == [a[..k]] + Windows(a[k..] + b, maxWords);
      }
    }
  }

  /** Every word of every group is a word of the input. */
  lemma {:induction false} WindowsHoldWords(words: seq<string>, maxWords: int)
    requires forall j | 0 <= j < |words| :: IsWord(words[j])
    ensures forall i, j | 0 <= i < |Windows(words, maxWords)| && 0 <= j < |Windows(words, maxWords)[i]| ::
              IsWord(Windows(words, maxWords)[i][j])
    decreases |words|
  {
    var k := WindowSize(maxWords);
    if |words| > k {
      WindowsHoldWords(words[k..], maxWords);
    }
  }

  /** A window filled up at `end` closes one more group. */
  lemma FullWindow(words: seq<string>, start: nat, end: nat, maxWords: int)
    requires start % WindowSize(maxWords) == 0 && end == start + WindowSize(maxWords) <= |words|
    ensures JoinEach(Windows(words[..end], maxWords))
         == JoinEach(Windows(words[..start], maxWords)) + [Join(" ", words[start..end])]
    ensures end % WindowSize(maxWords) == 0
  {
    var k := WindowSize(maxWords);
    var current := words[start..end];
    assert words[..start] + current == words[..end];
    WindowsAppend(words[..start], current, maxWords);
    assert Windows(current, maxWords) == [current];
    JoinEachAppend(Windows(words[..start], maxWords), [current]);
    DivStep(start, k);
  }

  /** The words left over after the last full window make one more group,
      unless there are none. */
  lemma LastWindow(words: seq<string>, start: nat, maxWords: int)
    requires start <= |words| < start + WindowSize(maxWords) && start % WindowSize(maxWords) == 0
    ensures JoinEach(Windows(words, maxWords))
         == JoinEach(Windows(words[..start], maxWords))
            + (if start == |words| then [] else [Join(" ", words[start..])])
  {
    var rest := words[start..];
    assert words[..start] + rest == words;
    WindowsAppend(words[..start], rest, maxWords);
    JoinEachAppend(Windows(words[..start], maxWords), Windows(rest, maxWords));
    if start == |words| {
      assert Windows(rest, maxWords) == [];
    } else {
      assert Windows(rest, maxWords) == [rest];
    }
  }

  /** `_split_long_text`. */
  method SplitLongText(words: seq<string>, maxWords: int) returns (chunks: seq<string>)
    ensures chunks == JoinEach(Windows(words, maxWords))
  {
    chunks := [];
    var current: seq<string> := [];
    ghost var k := WindowSize(maxWords);
    for i := 0 to |words|
      invariant |current| < k && |current| <= i
      invariant current == words[i - |current|..i]
      invariant (i - |current|) % k == 0
      invariant chunks == JoinEach(Windows(words[..i - |current|], maxWords))
    {
      ghost var start := i - |current|;
      assert words[start..i + 1] == words[start..i] + [words[i]];
      current := current + [words[i]];
      if |current| >= maxWords {
        FullWindow(words, start, i + 1, maxWords);
        chunks := chunks + [Join(" ", current)];
        current := [];
      }
    }
    ghost var start := |words| - |current|;
    assert current == words[start..];
    LastWindow(words, start, maxWords);
    if current != [] {
      chunks := chunks + [Join(" ", current)];
    } else {
      assert chunks + [] == chunks;
    }
  }

  /** The chunks' words, read in order, are the input words. */
  lemma {:induction false} AllWordsJoinEach(groups: seq<seq<string>>)
    requires forall i, j | 0 <= i < |groups| && 0 <= j < |groups[i]| :: IsWord(groups[i][j])
    ensures AllWords(JoinEach(groups)) == Flatten(groups)
  {
    if groups != [] {
      WordsOfJoin(groups[0]);
      assert JoinEach(groups)[1..] == JoinEach(groups[1..]);
      AllWordsJoinEach(groups[1..]);
    }
  }

  lemma ChunksKeepWords(words: seq<string>, maxWords: int)
    requires forall j | 0 <= j < |words| :: IsWord(words[j])
    ensures AllWords(JoinEach(Windows(words, maxWords))) == words
  {
    WindowsHoldWords(words, maxWords);
    AllWordsJoinEach(Windows(words, maxWords));
    WindowsFlatten(words, maxWords);
  }

  /** No chunk is empty, and chunk `i` holds exactly the words of group `i`. */
  lemma ChunksShape(words: seq<string>, maxWords: int)
    requires forall j | 0 <= j < |words| :: IsWord(words[j])
    ensures forall i | 0 <= i < |Windows(words, maxWords)| ::
              JoinEach(Windows(words, maxWords))[i] != []
              && Words(JoinEach(Windows(words, maxWords))[i]) == Windows(words, maxWords)[i]
  {
    var g := Windows(words, maxWords);
    WindowsHoldWords(words, maxWords);
    WindowsSizes(words, maxWords);
    forall i | 0 <= i < |g|
      ensures JoinEach(g)[i] != [] && Words(JoinEach(g)[i]) == g[i]
    {
      JoinWordsNonEmpty(g[i]);
      WordsOfJoin(g[i]);
    }
  }

  /** `_chunk_by_words`. */
  method ChunkByWords(text: string, maxWords: int) returns (chunks: seq<string>)
    ensures chunks == JoinEach(Windows(Words(text), maxWords))
  {
    chunks := SplitLongText(Words(text), maxWords);
  }

  /*** Paragraph chunking (`_chunk_paragraphs`) ***/

  /** What one paragraph contributes: itself, untouched, when it has at most
      `max_words` words, else its space-joined chunks. */
  function ParagraphPieces(para: string, maxWords: int): seq<string> {
    var words := Words(para);
    if |words| <= maxWords then [para] else JoinEach(Windows(words, maxWords))
  }

  /** The pieces `cut` gives each paragraph, in turn. */
  function PiecesOf(paras: seq<string>, cut: string -> seq<string>): seq<string>
    decreases |paras|
  {
    if paras == [] then []
    else PiecesOf(paras[..|paras| - 1], cut) + cut(paras[|paras| - 1])
  }

  /** Cutting a concatenation of paragraph lists cuts each list on its own. */
  lemma {:induction false} PiecesOfAppend(a: seq<string>, b: seq<string>, cut: string -> seq<string>)
    ensures PiecesOf(a + b, cut) == PiecesOf(a, cut) + PiecesOf(b, cut)
    decreases |b|
  {
    if b == [] {
      assert a + b == a;
    } else {
      var n := |b| - 1;
      var ab := a + b;
      assert ab[..|ab| - 1] == a + b[..n];
      assert ab[|ab| - 1] == b[n];
      calc {
        PiecesOf(ab, cut);
        PiecesOf(a + b[..n], cut) + cut(b[n]);
        { PiecesOfAppend(a, b[..n], cut); }
        (PiecesOf(a, cut) + PiecesOf(b[..n], cut)) + cut(b[n]);
        PiecesOf(a, cut) + (PiecesOf(b[..n], cut) + cut(b[n]));
        PiecesOf(a, cut) + PiecesOf(b, cut);
      }
    }
  }

  /** The pieces of each paragraph in turn. */
  function ChunkedParagraphs(paras: seq<string>, maxWords: int): seq<string> {
    PiecesOf(paras, para => ParagraphPieces(para, maxWords))
  }

  /** `_chunk_paragraphs`. */
  method ChunkParagraphs(paragraphs: seq<string>, maxWords: int) returns (partitions: seq<string>)
    ensures partitions == ChunkedParagraphs(paragraphs, maxWords)
  {
    partitions := [];
    for i := 0 to |paragraphs|
      invariant partitions == ChunkedParagraphs(paragraphs[..i], maxWords)
    {
      var para := paragraphs[i];
      var words := Words(para);
      if |words| <= maxWords {
        partitions := partitions + [para];
      } else {
        var chunks := SplitLongText(words, maxWords);
        partitions := partitions + chunks;
      }
      assert paragraphs[..i + 1][..i] == paragraphs[..i];
    }
    assert paragraphs[..|paragraphs|] == paragraphs;
  }

  /** A short paragraph passes through verbatim, spacing and newlines kept. */
  lemma ShortParagraphVerbatim(para: string, maxWords: int)
    requires |Words(para)| <= maxWords
    ensures ParagraphPieces(para, maxWords) == [para]
  {
  }

  /** A paragraph's pieces hold exactly its words, in order. */
  lemma ParagraphPiecesKeepWords(para: string, maxWords: int)
    ensures AllWords(ParagraphPieces(para, maxWords)) == Words(para)
  {
    if |Words(para)| > maxWords {
      ChunksKeepWords(Words(para), maxWords);
    } else {
      assert AllWords([para]) == Words(para) + AllWords([]);
    }
  }

  /** Paragraph order is kept and no piece spans two paragraphs: chunking a
      concatenation of paragraph lists chunks each list on its own. */
  lemma ChunkedParagraphsAppend(a: seq<string>, b: seq<string>, maxWords: int)
    ensures ChunkedParagraphs(a + b, maxWords) == ChunkedParagraphs(a, maxWords) + ChunkedParagraphs(b, maxWords)
  {
    PiecesOfAppend(a, b, para => ParagraphPieces(para, maxWords));
  }

  lemma {:induction false} ChunkedParagraphsKeepWords(paras: seq<string>, maxWords: int)
    ensures AllWords(ChunkedParagraphs(paras, maxWords)) == AllWords(paras)
    decreases |paras|
  {
    if paras != [] {
      var n := |paras| - 1;
      ChunkedParagraphsKeepWords(paras[..n], maxWords);
      ParagraphPiecesKeepWords(paras[n], maxWords);
      AllWordsAppend(ChunkedParagraphs(paras[..n], maxWords), ParagraphPieces(paras[n], maxWords));
      assert paras == paras[..n] + [paras[n]];
      AllWordsAppend(paras[..n], [paras[n]]);
      assert AllWords([paras[n]]) == Words(paras[n]) + AllWords([]);
    }
  }

  /*** Blank-line paragraphs (`re.split(r"\n\s*\n", text)`) ***/

  /** Length of the whitespace run at the front of `s`. */
  function SpaceRunLen(s: string): (n: nat)
    ensures n <= |s|
    ensures n < |s| ==> !IsSpace(s[n])
  {
    if s != [] && IsSpace(s[0]) then 1 + SpaceRunLen(s[1..]) else 0
  }

  lemma {:induction false} SpaceRunIsSpace(s: string)
    ensures forall k | 0 <= k < SpaceRunLen(s) :: IsSpace(s[k])
  {
    if s != [] && IsSpace(s[0]) {
      SpaceRunIsSpace(s[1..]);
      assert forall k | 1 <= k < SpaceRunLen(s) :: s[k] == s[1..][k - 1];
    }
  }

  /** One past the last newline in `s[..n]`, or 0 when it has none. */
  function AfterLastNewline(s: string, n: nat): (e: nat)
    requires n <= |s|
    ensures e <= n
    ensures e > 0 ==> s[e - 1] == '\n'
  {
    if n == 0 then 0
    else if s[n - 1] == '\n' then n
    else AfterLastNewline(s, n - 1)
  }

  lemma {:induction false} NoNewlineAfterLast(s: string, n: nat)
    requires n <= |s|
    ensures forall k | AfterLastNewline(s, n) <= k < n :: s[k] != '\n'
  {
    if n > 0 && s[n - 1] != '\n' {
      NoNewlineAfterLast(s, n - 1);
    }
  }

  /** Where a match of `\n\s*\n` starting at `i` ends. The greedy `\s*` takes
      the whole whitespace run after the first newline and gives back up to
      its last newline; with no newline in that run there is no match. */
  function SeparatorEnd(s: string, i: nat): (r: Option<nat>)
    requires i < |s|
    ensures r.Some? ==> i + 2 <= r.value <= |s| && s[i] == '\n' && s[r.value - 1] == '\n'
  {
    if s[i] != '\n' then None
    else
      var rest := s[i + 1..];
      var e := AfterLastNewline(rest, SpaceRunLen(rest));
      if e == 0 then None else Some(i + 1 + e)
  }

  /** A separator is all whitespace. Where none starts at a newline, the
      whitespace run after that newline holds no other newline. */
  lemma SeparatorEndShape(s: string, i: nat)
    requires i < |s|
    ensures SeparatorEnd(s, i).Some? ==> forall k | i <= k < SeparatorEnd(s, i).value :: IsSpace(s[k])
    ensures SeparatorEnd(s, i).None? && s[i] == '\n' ==>
              forall k | i + 1 <= k < i + 1 + SpaceRunLen(s[i + 1..]) :: s[k] != '\n'
  {
    if s[i] == '\n' {
      var rest := s[i + 1..];
      SpaceRunIsSpace(rest);
      NoNewlineAfterLast(rest, SpaceRunLen(rest));
      assert forall k | i + 1 <= k < i + 1 + SpaceRunLen(rest) :: s[k] == rest[k - i - 1];
    }
  }

  /** `sep` finds separators of `s` from `i` on: one starting at `j` ends
      after `j` and within `s`. */
  predicate SeparatorsWithin(s: string, i: nat, sep: nat -> Option<nat>) {
    forall j | i <= j < |s| :: sep(j).Some? ==> j < sep(j).value <= |s|
  }

  /** The pieces of `s[start..]` between the separators `sep` finds,
      scanning from `i` on: `sep(j)` is where a separator starting at `j`
      ends, if one does. */
  function Pieces(s: string, start: nat, i: nat, sep: nat -> Option<nat>): (r: seq<string>)
    requires start <= i <= |s| && SeparatorsWithin(s, i, sep)
    ensures r != []
    decreases |s| - i
  {
    if i == |s| then [s[start..]]
    else match sep(i)
      case Some(e) => [s[start..i]] + Pieces(s, e, e, sep)
      case None => Pieces(s, start, i + 1, sep)
  }

  /** The end of the separator starting at each position of `s[i..]`, if
      one does. */
  function SeparatorEnds(s: string, i: nat): (t: seq<Option<nat>>)
    requires i <= |s|
    ensures |t| == |s| - i
    ensures forall j | 0 <= j < |t| :: t[j].Some? ==> i + j < t[j].value <= |s|
    decreases |s| - i
  {
    if i == |s| then [] else [SeparatorEnd(s, i)] + SeparatorEnds(s, i + 1)
  }

  lemma {:induction false} SeparatorEndsAt(s: string, i: nat, j: nat)
    requires i <= j < |s|
    ensures SeparatorEnds(s, i)[j - i] == SeparatorEnd(s, j)
    decreases j - i
  {
    var t := SeparatorEnds(s, i + 1);
    assert SeparatorEnds(s, i) == [SeparatorEnd(s, i)] + t;
    if i < j {
      SeparatorEndsAt(s, i + 1, j);
      assert ([SeparatorEnd(s, i)] + t)[j - i] == t[j - i - 1];
    }
  }

  /** The `\n\s*\n` separators of `s`. */
  function BlankLines(s: string): (sep: nat -> Option<nat>)
    ensures SeparatorsWithin(s, 0, sep)
  {
    var t := SeparatorEnds(s, 0);
    (j: nat) => if j < |t| then t[j] else None
  }

  lemma BlankLinesAt(s: string, j: nat)
    requires j < |s|
    ensures BlankLines(s)(j) == SeparatorEnd(s, j)
  {
    SeparatorEndsAt(s, 0, j);
  }

  /** `re.split(r'\n\s*\n', s)`: there is always at least one piece. */
  function SplitBlankLines(s: string): (pieces: seq<string>)
    ensures pieces != []
  {
    Pieces(s, 0, 0, BlankLines(s))
  }

  /** The stripped, non-empty pieces between blank-line separators. */
  function Paragraphs(text: string): (ps: seq<string>)
    ensures forall k | 0 <= k < |ps| :: ps[k] != [] && IsStripped(ps[k])
  {
    KeepStripped(SplitBlankLines(text))
  }

  /** The whitespace run at the front of `x + y` is that of `x` when `x`
      ends with a non-whitespace character. */
  lemma {:induction false} SpaceRunPrefix(x: string, y: string)
    requires x != [] && !IsSpace(x[|x| - 1])
    ensures SpaceRunLen(x + y) == SpaceRunLen(x)
    decreases |x|
  {
    if IsSpace(x[0]) {
      assert |x| > 1;
      assert (x + y)[1..] == x[1..] + y;
      SpaceRunPrefix(x[1..], y);
    }
  }

  /** The last newline before `n` is found within the first `n` characters. */
  lemma {:induction false} AfterLastNewlinePrefix(x: string, y: string, n: nat)
    requires n <= |x|
    ensures AfterLastNewline(x + y, n) == AfterLastNewline(x, n)
  {
    if n > 0 {
      AfterLastNewlinePrefix(x, y, n - 1);
    }
  }

  /** A separator starting inside a text that ends with a non-whitespace
      character is found there whatever follows the text. */
  lemma SeparatorEndPrefix(a: string, u: string, i: nat)
    requires i < |a| && !IsSpace(a[|a| - 1])
    ensures SeparatorEnd(a + u, i) == SeparatorEnd(a, i)
  {
    var s := a + u;
    if a[i] == '\n' {
      assert i + 1 < |a|;
      var rest := a[i + 1..];
      assert s[i + 1..] == rest + u;
      SpaceRunPrefix(rest, u);
      AfterLastNewlinePrefix(rest, u, SpaceRunLen(rest));
    }
  }

  /** A separator is found from its own first character on: what comes
      before it does not matter. */
  lemma SeparatorEndShift(p: string, t: string, j: nat)
    requires j < |t|
    ensures SeparatorEnd(p + t, |p| + j) == match SeparatorEnd(t, j)
                                              case Some(e) => Some(|p| + e)
                                              case None => None
  {
    assert (p + t)[|p| + j] == t[j];
    assert (p + t)[|p| + j + 1..] == t[j + 1..];
  }

  /** A separator end moved by `n` characters. */
  function Shifted(o: Option<nat>, n: nat): Option<nat> {
    match o
    case Some(e) => Some(n + e)
    case None => None
  }

  /** Splitting the part of a text after a prefix `p` is splitting that part
      alone, when the separators found there are those of the part moved by
      `|p|`. */
  lemma {:induction false} PiecesShift(p: string, t: string, start: nat, j: nat,
                                       sepS: nat -> Option<nat>, sepT: nat -> Option<nat>)
    requires start <= j <= |t|
    requires SeparatorsWithin(t, j, sepT) && SeparatorsWithin(p + t, |p| + j, sepS)
    requires forall k | j <= k < |t| :: sepS(|p| + k) == Shifted(sepT(k), |p|)
    ensures Pieces(p + t, |p| + start, |p| + j, sepS) == Pieces(t, start, j, sepT)
    decreases |t| - j, 1
  {
    if j == |t| {
      assert (p + t)[|p| + start..] == t[start..];
    } else if sepT(j).Some? {
      PiecesShiftAtSeparator(p, t, start, j, sepS, sepT);
    } else {
      PiecesShiftPastSeparator(p, t, start, j, sepS, sepT);
    }
  }

  lemma {:induction false} PiecesShiftAtSeparator(p: string, t: string, start: nat, j: nat,
                                                  sepS: nat -> Option<nat>, sepT: nat -> Option<nat>)
    requires start <= j < |t| && sepT(j).Some?
    requires SeparatorsWithin(t, j, sepT) && SeparatorsWithin(p + t, |p| + j, sepS)
    requires forall k | j <= k < |t| :: sepS(|p| + k) == Shifted(sepT(k), |p|)
    ensures Pieces(p + t, |p| + start, |p| + j, sepS) == Pieces(t, start, j, sepT)
    decreases |t| - j, 0
  {
    var s := p + t;
    var e := sepT(j).value;
    assert sepS(|p| + j) == Some(|p| + e);
    assert Pieces(t, start, j, sepT) == [t[start..j]] + Pieces(t, e, e, sepT);
    assert Pieces(s, |p| + start, |p| + j, sepS)
        == [s[|p| + start..|p| + j]] + Pieces(s, |p| + e, |p| + e, sepS);
    PiecesShift(p, t, e, e, sepS, sepT);
    assert s[|p| + start..|p| + j] == t[start..j];
  }

  lemma {:induction false} PiecesShiftPastSeparator(p: string, t: string, start: nat, j: nat,
                                                    sepS: nat -> Option<nat>, sepT: nat -> Option<nat>)
    requires start <= j < |t| && sepT(j).None?
    requires SeparatorsWithin(t, j, sepT) && SeparatorsWithin(p + t, |p| + j, sepS)
    requires forall k | j <= k < |t| :: sepS(|p| + k) == Shifted(sepT(k), |p|)
    ensures Pieces(p + t, |p| + start, |p| + j, sepS) == Pieces(t, start, j, sepT)
    decreases |t| - j, 0
  {
    assert sepS(|p| + j).None?;
    PiecesShift(p, t, start, j + 1, sepS, sepT);
  }

  /** Splitting `a + u`, where the separators found within `a` are those of
      `a` alone and one starts right after `a`, ends the pieces of `a` at
      that separator and goes on after it. */
  lemma {:induction false} PiecesAtEnd(a: string, u: string, start: nat, i: nat,
                                       sepS: nat -> Option<nat>, sepA: nat -> Option<nat>)
    requires start <= i <= |a| < |a + u|
    requires SeparatorsWithin(a, i, sepA) && SeparatorsWithin(a + u, i, sepS)
    requires forall k | i <= k < |a| :: sepS(k) == sepA(k)
    requires sepS(|a|).Some?
    ensures var e := sepS(|a|).value;
      Pieces(a + u, start, i, sepS) == Pieces(a, start, i, sepA) + Pieces(a + u, e, e, sepS)
    decreases |a| - i, 1
  {
    if i == |a| {
      assert (a + u)[start..|a|] == a[start..];
    } else if sepA(i).Some? {
      PiecesAtEndAfterSeparator(a, u, start, i, sepS, sepA);
    } else {
      PiecesAtEndPastSeparator(a, u, start, i, sepS, sepA);
    }
  }

  lemma {:induction false} PiecesAtEndAfterSeparator(a: string, u: string, start: nat, i: nat,
                                                     sepS: nat -> Option<nat>, sepA: nat -> Option<nat>)
    requires start <= i < |a| < |a + u| && sepA(i).Some?
    requires SeparatorsWithin(a, i, sepA) && SeparatorsWithin(a + u, i, sepS)
    requires forall k | i <= k < |a| :: sepS(k) == sepA(k)
    requires sepS(|a|).Some?
    ensures var e := sepS(|a|).value;
      Pieces(a + u, start, i, sepS) == Pieces(a, start, i, sepA) + Pieces(a + u, e, e, sepS)
    decreases |a| - i, 0
  {
    var s := a + u;
    var f := sepA(i).value;
    var e := sepS(|a|).value;
    var x := Pieces(a, f, f, sepA);
    var tail := Pieces(s, e, e, sepS);
    assert Pieces(s, f, f, sepS) == x + tail by {
      PiecesAtEnd(a, u, f, f, sepS, sepA);
    }
    calc {
      Pieces(s, start, i, sepS);
      { assert sepS(i) == Some(f); }
      [s[start..i]] + Pieces(s, f, f, sepS);
      { assert s[start..i] == a[start..i]; }
      [a[start..i]] + (x + tail);
      ([a[start..i]] + x) + tail;
      Pieces(a, start, i, sepA) + tail;
    }
  }

  lemma {:induction false} PiecesAtEndPastSeparator(a: string, u: string, start: nat, i: nat,
                                                    sepS: nat -> Option<nat>, sepA: nat -> Option<nat>)
    requires start <= i < |a| < |a + u| && sepA(i).None?
    requires SeparatorsWithin(a, i, sepA) && SeparatorsWithin(a + u, i, sepS)
    requires forall k | i <= k < |a| :: sepS(k) == sepA(k)
    requires sepS(|a|).Some?
    ensures var e := sepS(|a|).value;
      Pieces(a + u, start, i, sepS) == Pieces(a, start, i, sepA) + Pieces(a + u, e, e, sepS)
    decreases |a| - i, 0
  {
    assert sepS(i).None?;
    PiecesAtEnd(a, u, start, i + 1, sepS, sepA);
  }

  /** Text that `\n\s*\n` matches whole: a newline, whitespace, and a last
      newline. A single blank line `"\n\n"`, a line of spaces or tabs
      `"\n \t\n"` and a run of blank lines `"\n\n\n"` are all separators. */
  predicate IsSeparator(sep: string) {
    |sep| >= 2 && sep[0] == '\n' && sep[|sep| - 1] == '\n' && IsBlank(sep)
  }

  /** The whitespace run at the front of `x + y` is `x` itself when `x` is
      blank and `y` does not start with whitespace. */
  lemma {:induction false} SpaceRunOfBlank(x: string, y: string)
    requires IsBlank(x) && (y == [] || !IsSpace(y[0]))
    ensures SpaceRunLen(x + y) == |x|
    decreases |x|
  {
    if x == [] {
      assert x + y == y;
    } else {
      assert (x + y)[1..] == x[1..] + y;
      SpaceRunOfBlank(x[1..], y);
    }
  }

  /** A single blank line is a separator. */
  lemma BlankLineIsSeparator()
    ensures IsSeparator("\n\n")
  {
  }

  /** A separator before a stripped text is matched whole. */
  lemma SeparatorBeforeStripped(a: string, sep: string, b: string)
    requires IsSeparator(sep) && IsStripped(b)
    ensures |a| < |a + sep + b| && SeparatorEnd(a + sep + b, |a|) == Some(|a| + |sep|)
  {
    var s := a + sep + b;
    var rest := s[|a| + 1..];
    var tail := sep[1..];
    assert rest == tail + b;
    assert s[|a|] == '\n';
    assert SpaceRunLen(rest) == |tail| by {
      SpaceRunOfBlank(tail, b);
    }
    assert AfterLastNewline(rest, |tail|) == |tail| by {
      assert rest[|tail| - 1] == '\n';
    }
  }

  /** The blank lines found within a text ending with a non-whitespace
      character are those of the text alone, whatever follows it. */
  lemma BlankLinesPrefix(a: string, u: string)
    requires a != [] && !IsSpace(a[|a| - 1])
    ensures forall k | 0 <= k < |a| :: BlankLines(a + u)(k) == BlankLines(a)(k)
  {
    forall k | 0 <= k < |a|
      ensures BlankLines(a + u)(k) == BlankLines(a)(k)
    {
      SeparatorEndPrefix(a, u, k);
      BlankLinesAt(a + u, k);
      BlankLinesAt(a, k);
    }
  }

  /** The blank lines found after a prefix are those of the rest, moved. */
  lemma BlankLinesShift(p: string, t: string)
    ensures forall k | 0 <= k < |t| :: BlankLines(p + t)(|p| + k) == Shifted(BlankLines(t)(k), |p|)
  {
    forall k | 0 <= k < |t|
      ensures BlankLines(p + t)(|p| + k) == Shifted(BlankLines(t)(k), |p|)
    {
      BlankLinesShiftAt(p, t, k);
    }
  }

  /** One position of `BlankLinesShift`. */
  lemma BlankLinesShiftAt(p: string, t: string, k: nat)
    requires k < |t|
    ensures BlankLines(p + t)(|p| + k) == Shifted(BlankLines(t)(k), |p|)
  {
    BlankLinesAt(p + t, |p| + k);
    BlankLinesAt(t, k);
    SeparatorEndShift(p, t, k);
  }

  /** Splitting `a + sep + b` stops the pieces of `a` at the separator. */
  lemma SplitBeforeSeparator(a: string, sep: string, b: string)
    requires a != [] && IsStripped(a) && IsStripped(b) && IsSeparator(sep)
    ensures var s := a + sep + b;
      SplitBlankLines(s) == SplitBlankLines(a) + Pieces(s, |a| + |sep|, |a| + |sep|, BlankLines(s))
  {
    var u := sep + b;
    var s := a + u;
    assert s == a + sep + b;
    assert |a| < |s| && BlankLines(s)(|a|) == Some(|a| + |sep|) by {
      SeparatorBeforeStripped(a, sep, b);
      BlankLinesAt(s, |a|);
    }
    assert forall k | 0 <= k < |a| :: BlankLines(s)(k) == BlankLines(a)(k) by {
      BlankLinesPrefix(a, u);
    }
    PiecesAtEnd(a, u, 0, 0, BlankLines(s), BlankLines(a));
  }

  /** After a prefix `p` that ends at a separator, `p + t` is split as `t`
      alone. */
  lemma SplitAfterPrefix(p: string, t: string)
    ensures Pieces(p + t, |p|, |p|, BlankLines(p + t)) == SplitBlankLines(t)
  {
    BlankLinesShift(p, t);
    PiecesShift(p, t, 0, 0, BlankLines(p + t), BlankLines(t));
  }

  /** A blank line splits, whatever whitespace it holds and however many
      lines it spans: the pieces of two stripped texts around a separator are
      those of the first text, then those of the second. */
  lemma SplitAtBlankLine(a: string, sep: string, b: string)
    requires a != [] && IsStripped(a) && IsStripped(b) && IsSeparator(sep)
    ensures SplitBlankLines(a + sep + b) == SplitBlankLines(a) + SplitBlankLines(b)
  {
    SplitBeforeSeparator(a, sep, b);
    assert a + sep + b == (a + sep) + b;
    SplitAfterPrefix(a + sep, b);
  }

  /** The paragraphs of two stripped texts around a separator are those of
      the first text, then those of the second. */
  lemma ParagraphsAtBlankLine(a: string, sep: string, b: string)
    requires a != [] && IsStripped(a) && IsStripped(b) && IsSeparator(sep)
    ensures Paragraphs(a + sep + b) == Paragraphs(a) + Paragraphs(b)
  {
    SplitAtBlankLine(a, sep, b);
    KeepStrippedAppend(SplitBlankLines(a), SplitBlankLines(b));
  }

  /** No `\n\s*\n` separator starts anywhere in `p`. */
  predicate HasNoBlankLine(p: string) {
    forall j | 0 <= j < |p| :: SeparatorEnd(p, j).None?
  }

  /** Stripped paragraphs without blank lines, joined by blank lines, are
      split back into themselves. */
  lemma {:induction false} ParagraphsOfJoinAll(ps: seq<string>)
    requires forall k | 0 <= k < |ps| :: ps[k] != [] && IsStripped(ps[k]) && HasNoBlankLine(ps[k])
    ensures Paragraphs(Join("\n\n", ps)) == ps
  {
    if ps == [] {
      assert SplitBlankLines([]) == [[]];
      assert KeepStripped([[]]) == [] + KeepStripped([]);
    } else {
      assert ps == [ps[0]] + ps[1..];
      assert Paragraphs(ps[0]) == [ps[0]] by {
        OneParagraphWithoutBlankLine(ps[0]);
        StripStripped(ps[0]);
      }
      if |ps| > 1 {
        var rest := Join("\n\n", ps[1..]);
        assert Join("\n\n", ps) == ps[0] + "\n\n" + rest;
        assert Paragraphs(rest) == ps[1..] by {
          ParagraphsOfJoinAll(ps[1..]);
        }
        assert rest != [] && IsStripped(rest) by {
          JoinStripped("\n\n", ps[1..]);
        }
        BlankLineIsSeparator();
        ParagraphsAtBlankLine(ps[0], "\n\n", rest);
      }
    }
  }

  /** A separator holds no word: the words around it are all the words. */
  lemma WordsAroundSeparator(s: string, start: nat, i: nat, e: nat)
    requires start <= i < |s| && SeparatorEnd(s, i) == Some(e)
    ensures Words(s[start..]) == Words(s[start..i]) + Words(s[e..])
  {
    var head, mid, tail := s[start..i], s[i..e], s[e..];
    assert IsBlank(mid) by {
      SeparatorEndShape(s, i);
      assert forall k | 0 <= k < e - i :: mid[k] == s[i + k];
    }
    assert s[start..] == head + (mid + tail);
    assert Words(head + (mid + tail)) == Words(head) + Words(mid + tail) by {
      assert (mid + tail)[0] == mid[0];
      WordsConcat(head, mid + tail);
    }
    assert Words(mid + tail) == Words(tail) by {
      WordsBlankPrefix(mid, tail);
    }
  }


  lemma {:induction false} SplitBlankLinesKeepWords(s: string, start: nat, i: nat)
    requires start <= i <= |s|
    ensures AllWords(Pieces(s, start, i, BlankLines(s))) == Words(s[start..])
    decreases |s| - i
  {
    var sep := BlankLines(s);
    if i == |s| {
      assert AllWords([s[start..]]) == Words(s[start..]) + AllWords([]);
    } else {
      BlankLinesAt(s, i);
      match SeparatorEnd(s, i)
      case Some(e) =>
        SplitBlankLinesKeepWords(s, e, e);
        var rest := Pieces(s, e, e, sep);
        assert Pieces(s, start, i, sep) == [s[start..i]] + rest;
        assert ([s[start..i]] + rest)[1..] == rest;
        assert AllWords([s[start..i]] + rest) == Words(s[start..i]) + AllWords(rest);
        WordsAroundSeparator(s, start, i, e);
      case None =>
        SplitBlankLinesKeepWords(s, start, i + 1);
    }
  }

  /** Splitting into paragraphs loses no word and keeps their order. */
  lemma ParagraphsKeepWords(text: string)
    ensures AllWords(Paragraphs(text)) == Words(text)
  {
    AllWordsKeepStripped(SplitBlankLines(text));
    SplitBlankLinesKeepWords(text, 0, 0);
    assert text[0..] == text;
  }

  lemma {:induction false} NoSeparatorOnePiece(s: string, start: nat, i: nat, sep: nat -> Option<nat>)
    requires start <= i <= |s| && SeparatorsWithin(s, i, sep)
    requires forall j | i <= j < |s| :: sep(j).None?
    ensures Pieces(s, start, i, sep) == [s[start..]]
    decreases |s| - i
  {
    if i < |s| {
      NoSeparatorOnePiece(s, start, i + 1, sep);
    }
  }

  /** A text without a blank line is a single paragraph: the stripped text. */
  lemma OneParagraphWithoutBlankLine(text: string)
    requires HasNoBlankLine(text)
    ensures Paragraphs(text) == if IsBlank(text) then [] else [Strip(text)]
  {
    forall j | 0 <= j < |text|
      ensures BlankLines(text)(j).None?
    {
      BlankLinesAt(text, j);
    }
    NoSeparatorOnePiece(text, 0, 0, BlankLines(text));
    assert text[0..] == text;
    assert KeepStripped([text]) == (if Strip(text) == [] then [] else [Strip(text)]) + KeepStripped([]);
  }

  /*** `partition_text` ***/

  /** The chunks `partition_text` returns. */
  function Partition(text: string, maxWords: int, splitByParagraph: bool): seq<string> {
    var t := Strip(text);
    if t == [] then []
    else if splitByParagraph then ChunkedParagraphs(Paragraphs(t), maxWords)
    else JoinEach(Windows(Words(t), maxWords))
  }

  /** In paragraph mode no chunk spans a blank line: the chunks of two
      stripped texts around a separator are those of the first text, then
      those of the second. */
  lemma PartitionAtBlankLine(a: string, sep: string, b: string, maxWords: int)
    requires a != [] && b != [] && IsStripped(a) && IsStripped(b) && IsSeparator(sep)
    ensures Partition(a + sep + b, maxWords, true)
         == Partition(a, maxWords, true) + Partition(b, maxWords, true)
  {
    var t := a + sep + b;
    assert IsStripped(t) by {
      assert t[0] == a[0] && t[|t| - 1] == b[|b| - 1];
    }
    StripStripped(t);
    StripStripped(a);
    StripStripped(b);
    ParagraphsAtBlankLine(a, sep, b);
    ChunkedParagraphsAppend(Paragraphs(a), Paragraphs(b), maxWords);
  }

  /** `partition_text`. */
  method PartitionText(text: string, maxWords: int, splitByParagraph: bool) returns (parts: seq<string>)
    ensures parts == Partition(text, maxWords, splitByParagraph)
  {
    var t := Strip(text);
    if t == [] {
      return [];
    }
    if splitByParagraph {
      parts := ChunkParagraphs(Paragraphs(t), maxWords);
    } else {
      parts := ChunkByWords(t, maxWords);
    }
  }

  /** Empty or whitespace-only text gives no chunk. */
  lemma PartitionOfBlank(text: string, maxWords: int, splitByParagraph: bool)
    requires IsBlank(text)
    ensures Partition(text, maxWords, splitByParagraph) == []
  {
  }

  /** In both modes the chunks hold the text's words, in order, each once. */
  lemma PartitionKeepsWords(text: string, maxWords: int, splitByParagraph: bool)
    ensures AllWords(Partition(text, maxWords, splitByParagraph)) == Words(text)
  {
    var t := Strip(text);
    WordsOfStrip(text);
    if t == [] {
      WordsOfBlank(text);
    } else if splitByParagraph {
      ChunkedParagraphsKeepWords(Paragraphs(t), maxWords);
      ParagraphsKeepWords(t);
    } else {
      ChunksKeepWords(Words(t), maxWords);
    }
  }

  lemma {:induction false} ChunkedParagraphsNonEmpty(paras: seq<string>, maxWords: int)
    requires forall k | 0 <= k < |paras| :: paras[k] != []
    ensures forall k | 0 <= k < |ChunkedParagraphs(paras, maxWords)| :: ChunkedParagraphs(paras, maxWords)[k] != []
    decreases |paras|
  {
    if paras != [] {
      var n := |paras| - 1;
      ChunkedParagraphsNonEmpty(paras[..n], maxWords);
      assert ChunkedParagraphs(paras, maxWords) == ChunkedParagraphs(paras[..n], maxWords) + ParagraphPieces(paras[n], maxWords);
      if |Words(paras[n])| > maxWords {
        ChunksShape(Words(paras[n]), maxWords);
      }
    }
  }

  /** No chunk is empty, in either mode. */
  lemma PartitionChunksNonEmpty(text: string, maxWords: int, splitByParagraph: bool)
    ensures forall k | 0 <= k < |Partition(text, maxWords, splitByParagraph)| ::
              Partition(text, maxWords, splitByParagraph)[k] != []
  {
    var t := Strip(text);
    if t != [] {
      if splitByParagraph {
        ChunkedParagraphsNonEmpty(Paragraphs(t), maxWords);
      } else {
        ChunksShape(Words(t), maxWords);
      }
    }
  }

  /** Word mode: every chunk but the last has exactly the window's number of
      words (`max_words`, or 1 when `max_words <= 0`), the last between one
      and that many, and there are ceil(n / window) chunks for n words. */
  lemma ChunkWordCounts(words: seq<string>, maxWords: int)
    requires forall j | 0 <= j < |words| :: IsWord(words[j])
    ensures var p, k := JoinEach(Windows(words, maxWords)), WindowSize(maxWords);
      && |p| == (|words| + k - 1) / k
      && (forall i | 0 <= i < |p| - 1 :: |Words(p[i])| == k)
      && (p != [] ==> 1 <= |Words(p[|p| - 1])| <= k)
  {
    var g, p, k := Windows(words, maxWords), JoinEach(Windows(words, maxWords)), WindowSize(maxWords);
    WindowsSizes(words, maxWords);
    ChunksShape(words, maxWords);
    assert |p| == |g|;
    forall i | 0 <= i < |p| - 1
      ensures |Words(p[i])| == k
    {
      assert Words(p[i]) == g[i];
    }
    if p != [] {
      assert Words(p[|p| - 1]) == g[|g| - 1];
    }
  }

  /** Word mode partitions the text's own words: surrounding whitespace,
      and a blank text, change nothing. */
  lemma PartitionByWords(text: string, maxWords: int)
    ensures Partition(text, maxWords, false) == JoinEach(Windows(Words(text), maxWords))
  {
    WordsOfStrip(text);
    if Strip(text) == [] {
      WordsOfBlank(text);
    }
  }

  /*** `extract_statements` ***/

  /** The extraction prompt; its wording is not modelled, only where the
      chunk goes. */
  const ExtractTemplate := "[extract the statements of the text, pronouns resolved, one per line] Text: {text}"

  function ExtractPrompt(partition: string): string {
    Substitute(ExtractTemplate, "{text}", partition)
  }

  /** The parser's own container: both Cerebras models. */
  function ParserRegistry(): map<string, Client> {
    RegistryOf([(CerebrasProvider, SmallModel), (CerebrasProvider, LargeModel)])
  }

  lemma ParserRegistryHasLargeModel()
    ensures Lookup(ParserRegistry(), CerebrasProvider, LargeModel) == Ok(Client(CerebrasProvider, LargeModel))
  {
    RegisterThenGet(RegistryOf([(CerebrasProvider, SmallModel)]), CerebrasProvider, LargeModel);
  }

  /** The post-processing of the extractor's answer: its lines, stripped,
      blank ones dropped. */
  function Statements(response: string): (r: seq<string>)
    ensures forall k | 0 <= k < |r| :: r[k] != [] && IsStripped(r[k])
  {
    KeepStripped(SplitOn(response, '\n'))
  }

  /** `extract_statements`: the large model's answer, post-processed. The
      parser registered that model, so only the service itself can fail. */
  function ExtractStatements(partition: string, env: Env): (r: Result<seq<string>, Failure>)
    ensures r.Err? <==> env.complete(LargeModel, ExtractPrompt(partition)).Raised?
    ensures env.complete(LargeModel, ExtractPrompt(partition)).Content? ==>
              r == Ok(Statements(env.complete(LargeModel, ExtractPrompt(partition)).text))
    ensures env.complete(LargeModel, ExtractPrompt(partition)).NoContent? ==>
              r == Ok(Statements(NoContentAnswer(LargeModel)))
  {
    ParserRegistryHasLargeModel();
    CerebrasIsLowerCase();
    match Lookup(ParserRegistry(), CerebrasProvider, LargeModel)
    case Err(e) => Err(e)
    case Ok(client) =>
      var response :- GenerateText(client, ExtractPrompt(partition), env.complete);
      Ok(Statements(response))
  }

  /** A blank answer gives no statement. */
  lemma StatementsOfBlank(response: string)
    requires IsBlank(response)
    ensures Statements(response) == []
  {
    JoinSplitOn(response, '\n');
    BlankJoinParts(['\n'], SplitOn(response, '\n'));
    KeepStrippedOfBlanks(SplitOn(response, '\n'));
  }

  /** Statements keep the answer's line order: the statements of two blocks
      joined by a newline are those of the first block, then the second's. */
  lemma StatementsConcat(a: string, b: string)
    ensures Statements(a + "\n" + b) == Statements(a) + Statements(b)
  {
    SplitOnConcat(a, b, '\n');
    KeepStrippedAppend(SplitOn(a, '\n'), SplitOn(b, '\n'));
  }

  /** A one-line, non-blank answer is one statement: the line, stripped. */
  lemma StatementsOfOneLine(response: string)
    requires '\n' !in response && !IsBlank(response)
    ensures Statements(response) == [Strip(response)]
  {
    assert IndexOf(response, '\n') == None;
    assert KeepStripped([response]) == [Strip(response)] + KeepStripped([]);
  }

  /** An answer without content is not "no statement": the client's error
      string becomes one statement of its own. */
  lemma NoContentIsOneStatement()
    ensures Statements(NoContentAnswer(LargeModel)) == [NoContentAnswer(LargeModel)]
  {
    var e := NoContentAnswer(LargeModel);
    assert e[0] == '[' && e[|e| - 1] == 't';
    assert '\n' !in e by {
      assert forall k | 0 <= k < |e| :: e[k] != '\n';
    }
    StatementsOfOneLine(e);
    StripStripped(e);
  }
}
