/** `PaperCheck`: a statement about a paper is scored by whether its title
    is found, first on Google Scholar, then on arXiv. */
module PaperCheck {
  import opened Wrappers
  import opened Text
  import opened Environment

  /** `t` is the piece of `text` starting at `i`. */
  predicate OccursAt(text: string, t: string, i: nat) {
    i + |t| <= |text| && text[i..i + |t|] == t
  }

  /** `t` is the piece of `text` starting at `i`, between two quotes `q`. */
  predicate QuotedAt(text: string, q: char, t: string, i: nat) {
    0 < i && i + |t| < |text| && text[i - 1] == q && text[i + |t|] == q && OccursAt(text, t, i)
  }

  /** The first match of `q([^q]*)q`: the text between the first two
      occurrences of the quote character `q`, when there are two. */
  function QuotedSpan(text: string, q: char): (r: Option<string>)
    ensures r.None? <==> forall i, j | 0 <= i < j < |text| && text[i] == q :: text[j] != q
    ensures r.Some? ==> q !in r.value
    ensures r.Some? ==> exists i :: QuotedAt(text, q, r.value, i)
  {
    match IndexOf(text, q)
    case None => None
    case Some(i) =>
      match IndexOf(text[i + 1..], q)
      case None =>
        assert forall j | i < j < |text| :: text[j] == text[i + 1..][j - i - 1];
        None
      case Some(j) =>
        assert QuotedAt(text, q, text[i + 1..i + 1 + j], i + 1);
        Some(text[i + 1..i + 1 + j])
  }

  /** The span found is exactly the one between the first two quotes. */
  lemma QuotedSpanOf(pre: string, t: string, post: string, q: char)
    requires q !in pre && q !in t
    ensures QuotedSpan(pre + [q] + t + [q] + post, q) == Some(t)
  {
    var text := pre + [q] + t + [q] + post;
    var tail := [q] + post;
    var k := |pre|;
    assert IndexOf(text, q) == Some(k) && text[k + 1..] == t + tail by {
      FirstQuote(pre, t, post, q);
    }
    assert IndexOf(text[k + 1..], q) == Some(|t|) by {
      IndexOfFirst(t, tail, q);
    }
    assert text[k + 1..k + 1 + |t|] == t by {
      assert text[k + 1..][..|t|] == (t + tail)[..|t|];
    }
    QuotedSpanAt(text, q, k, t);
  }

  /** The first quote of such a text is the one after `pre`, and the text
      after it is `t` and the rest. */
  lemma FirstQuote(pre: string, t: string, post: string, q: char)
    requires q !in pre
    ensures IndexOf(pre + [q] + t + [q] + post, q) == Some(|pre|)
    ensures (pre + [q] + t + [q] + post)[|pre| + 1..] == t + ([q] + post)
  {
    var text := pre + [q] + t + [q] + post;
    assert text[|pre|] == q;
    assert text[..|pre|] == pre;
    var rest := t + ([q] + post);
    assert |text[|pre| + 1..]| == |rest|;
    forall k | 0 <= k < |rest|
      ensures text[|pre| + 1..][k] == rest[k]
    {
      if k < |t| {
        assert text[|pre| + 1 + k] == t[k];
      } else if k == |t| {
        assert text[|pre| + 1 + k] == q;
      } else {
        assert text[|pre| + 1 + k] == post[k - |t| - 1];
      }
    }
  }

  /** The span between the first quote and the next one. */
  lemma QuotedSpanAt(text: string, q: char, i: nat, t: string)
    requires IndexOf(text, q) == Some(i)
    requires IndexOf(text[i + 1..], q) == Some(|t|)
    requires i + 1 + |t| <= |text| && text[i + 1..i + 1 + |t|] == t
    ensures QuotedSpan(text, q) == Some(t)
  {
    var j := |t|;
    assert QuotedSpan(text, q) == Some(text[i + 1..i + 1 + j]);
  }

  /** The first occurrence of `q` in `a + b` is the first of `b` when `a`
      holds none and `b` starts with `q`. */
  lemma IndexOfFirst(a: string, b: string, q: char)
    requires q !in a && b != [] && b[0] == q
    ensures IndexOf(a + b, q) == Some(|a|)
  {
    var s := a + b;
    assert s[|a|] == q;
    assert s[..|a|] == a;
  }

  /** The title searched for: a double-quoted span, else a single-quoted
      span, else the whole statement. An empty span is still a match. */
  function Title(text: string): (title: string)
    ensures exists i :: OccursAt(text, title, i)
  {
    match QuotedSpan(text, '"')
    case Some(t) => t
    case None =>
      match QuotedSpan(text, '\'')
      case Some(t) => t
      case None =>
        assert OccursAt(text, text, 0);
        text
  }

  /** A double-quoted title is taken, whatever single quotes come before. */
  lemma TitleDoubleQuoted(pre: string, t: string, post: string)
    requires '"' !in pre && '"' !in t
    ensures Title(pre + ['"'] + t + ['"'] + post) == t
  {
    QuotedSpanOf(pre, t, post, '"');
  }

  /** Without a pair of double quotes, a single-quoted title is taken. */
  lemma TitleSingleQuoted(pre: string, t: string, post: string)
    requires '\'' !in pre && '\'' !in t
    requires QuotedSpan(pre + ['\''] + t + ['\''] + post, '"').None?
    ensures Title(pre + ['\''] + t + ['\''] + post) == t
  {
    QuotedSpanOf(pre, t, post, '\'');
  }

  /** With no pair of either quote the title is the whole statement. */
  lemma TitleUnquoted(text: string)
    requires forall i, j | 0 <= i < j < |text| && text[i] == '"' :: text[j] != '"'
    requires forall i, j | 0 <= i < j < |text| && text[i] == '\'' :: text[j] != '\''
    ensures Title(text) == text
  {
  }

  /** An empty pair of double quotes gives the empty title, even when a
      single-quoted title follows. */
  lemma TitleEmptyQuotes(pre: string, post: string)
    requires '"' !in pre
    ensures Title(pre + ['"', '"'] + post) == ""
  {
    QuotedSpanOf(pre, "", post, '"');
    assert pre + ['"'] + "" + ['"'] + post == pre + ['"', '"'] + post;
  }

  /** `PaperCheck.check_fact`: 0.95 when Scholar finds the title, else 0.90
      when arXiv does, else 0.1. A failed search counts as a miss, and
      nothing propagates. */
  function CheckPaper(text: string, scholar: string -> SearchOutcome, arxiv: string -> SearchOutcome): (score: real)
    ensures score == 0.95 || score == 0.90 || score == 0.1
    ensures score == 0.95 <==> scholar(Title(text)).Found?
    ensures score == 0.90 <==> !scholar(Title(text)).Found? && arxiv(Title(text)).Found?
  {
    var title := Title(text);
    if scholar(title).Found? then 0.95
    else if arxiv(title).Found? then 0.90
    else 0.1
  }

  /** On a Scholar hit arXiv is never consulted: any arXiv gives the same score. */
  lemma ScholarHitIgnoresArxiv(text: string, scholar: string -> SearchOutcome,
                               arxiv1: string -> SearchOutcome, arxiv2: string -> SearchOutcome)
    requires scholar(Title(text)).Found?
    ensures CheckPaper(text, scholar, arxiv1) == CheckPaper(text, scholar, arxiv2) == 0.95
  {
  }

  /** Only the title matters: statements with one title score alike. */
  lemma SameTitleSameScore(a: string, b: string, scholar: string -> SearchOutcome, arxiv: string -> SearchOutcome)
    requires Title(a) == Title(b)
    ensures CheckPaper(a, scholar, arxiv) == CheckPaper(b, scholar, arxiv)
  {
  }
}
